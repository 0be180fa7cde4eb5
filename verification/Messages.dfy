// A protected-call message as its receiver sees it: a label (`tag`) and exactly
// its counted words, which the sender has put in the message registers.

module Messages {
  import opened Words

  datatype Message = Message(tag: u64, words: seq<u64>)

  predicate Is(m: Message, tag: u64, count: nat) { m.tag == tag && |m.words| == count }
}

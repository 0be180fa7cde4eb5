// servers/audit.c: a bounded, append-only log of policy decisions.

module AuditServer {
  import opened Words
  import opened Messages
  import opened Policy

  const CAPACITY := 64
  const FIELDS := 7

  const TCS_REPLY: u64 := 0x180
  const AUDIT_APPEND: u64 := 0x120
  const AUDIT_COUNT: u64 := 0x121
  const AUDIT_GET: u64 := 0x122

  function TcsReply(r: Result): Message { Message(TCS_REPLY, [r.status, r.value]) }

  function TcsResponse(m: Message): Result {
    if Is(m, TCS_REPLY, 2) then Result(m.words[0], m.words[1]) else Result(BAD_MESSAGE, 0)
  }

  type Record = r: seq<u64> | |r| == FIELDS witness seq(FIELDS, _ => 0)

  type Log = l: seq<Record> | |l| <= CAPACITY

  // Channel 0 appends for the policy owner; channel 1 reads.
  function Audited(log: Log, ch: u64, m: Message): (Log, Message) {
    if ch == 1 && Is(m, AUDIT_COUNT, 0) then (log, TcsReply(Result(OK, |log|)))
    else if ch == 1 && Is(m, AUDIT_GET, 1) then
      if m.words[0] >= |log| then (log, TcsReply(Result(DENIED, 0)))
      else (log, Message(AUDIT_GET, [m.words[0] + 1] + log[m.words[0]]))
    else if ch != 0 then (log, TcsReply(Result(DENIED, 0)))
    else if !Is(m, AUDIT_APPEND, 7) then (log, TcsReply(Result(BAD_MESSAGE, 0)))
    else if |log| == CAPACITY then (log, TcsReply(Result(AUDIT_FULL, 0)))
    else (log + [m.words], TcsReply(Result(OK, |log| + 1)))
  }

  class Auditor {
    const records: array2<u64>
    var count: u64

    constructor ()
      ensures Shape() && fresh(records) && Contents() == []
    {
      records := new u64[CAPACITY, FIELDS]((_, _) => 0);
      count := 0;
    }

    ghost predicate Shape()
      reads this
    {
      records.Length0 == CAPACITY && records.Length1 == FIELDS && count <= CAPACITY
    }

    ghost function Row(i: nat): (r: Record)
      requires Shape() && i < CAPACITY
      reads this, records
    {
      [records[i, 0], records[i, 1], records[i, 2], records[i, 3], records[i, 4], records[i, 5], records[i, 6]]
    }

    ghost function Contents(): (log: Log)
      requires Shape()
      reads this, records
      ensures |log| == count && forall i | 0 <= i < count :: log[i] == Row(i)
    {
      seq(count, i requires 0 <= i < count && Shape() reads this, records => Row(i))
    }

    method Append(words: seq<u64>)
      requires Shape() && |words| == FIELDS && count < CAPACITY
      modifies this, records
      ensures Shape() && Contents() == old(Contents()) + [words]
    {
      ghost var log := Contents();
      var i := 0;
      while i < FIELDS
        invariant 0 <= i <= FIELDS && Shape() && count == old(count)
        invariant forall k | 0 <= k < i :: records[count, k] == words[k]
        invariant forall j, k | 0 <= j < count && 0 <= k < FIELDS :: records[j, k] == old(records[j, k])
      {
        records[count, i] := words[i];
        i := i + 1;
      }
      assert Row(count) == words;
      assert forall j | 0 <= j < count :: Row(j) == old(Row(j));
      count := count + 1;
      assert Contents() == log + [words];
    }

    method Get(index: u64) returns (words: seq<u64>)
      requires Shape() && index < count
      ensures words == [index + 1] + Contents()[index]
    {
      words := [index + 1];
      var i := 0;
      while i < FIELDS
        invariant 0 <= i <= FIELDS && words == [index + 1] + Row(index)[..i]
      {
        words := words + [records[index, i]];
        i := i + 1;
      }
      assert Row(index)[..i] == Row(index);
    }

    method Protected(ch: u64, m: Message) returns (reply: Message)
      requires Shape()
      modifies this, records
      ensures Shape() && (Contents(), reply) == Audited(old(Contents()), ch, m)
    {
      if ch == 1 && Is(m, AUDIT_COUNT, 0) { return TcsReply(Result(OK, count)); }
      if ch == 1 && Is(m, AUDIT_GET, 1) {
        var index := m.words[0];
        if index >= count { return TcsReply(Result(DENIED, 0)); }
        var words := Get(index);
        return Message(AUDIT_GET, words);
      }
      if ch != 0 { return TcsReply(Result(DENIED, 0)); }
      if !Is(m, AUDIT_APPEND, 7) { return TcsReply(Result(BAD_MESSAGE, 0)); }
      if count == CAPACITY { return TcsReply(Result(AUDIT_FULL, 0)); }
      Append(m.words);
      return TcsReply(Result(OK, count));
    }
  }
}

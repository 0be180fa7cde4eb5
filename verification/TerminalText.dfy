// servers/terminal.c: what the terminal prints, and which calls its actions make.

module TerminalText {
  import opened Words
  import opened Codec
  import opened Messages
  import opened Policy
  import opened AuditServer
  import opened PolicyServer
  import opened AdminReceipt
  import opened SignedInput
  import opened Commands
  import opened Console
  import A = Admin
  import S = AdminServer

  const OUTPUT := 256

  const CLIENT_READ: u64 := 0x111
  const CLIENT_STATUS: u64 := 0x114

  function Chars(bs: Bytes): (text: string)
    ensures |text| == |bs|
  {
    seq(|bs|, i requires 0 <= i < |bs| => bs[i] as char)
  }

  function Printed(v: u64): (text: string)
    ensures |text| <= 20
  {
    WordDigits(v);
    Chars(Decimal(v))
  }

  datatype Profile = HostTest | ReleaseKernel | DebugKernel

  datatype Launch = Operator | Fixture

  datatype Build = ReadOnly(profile: Profile) | Signing(profile: Profile, launch: Launch)

  function ProfileName(p: Profile): (text: string)
    ensures |text| <= 14
  {
    match p case HostTest => "host-test" case ReleaseKernel => "release-kernel" case DebugKernel => "debug-kernel"
  }

  function LaunchName(l: Launch): (text: string)
    ensures |text| <= 21
  {
    match l case Operator => "experimental-operator" case Fixture => "PUBLIC-FIXTURE-ONLY"
  }

  const PROMPT := "tcs> "

  function Banner(build: Build): (text: string)
    ensures |text| <= OUTPUT
  {
    match build
    case ReadOnly(p) => "TCS TERMINAL READY (" + ProfileName(p) + ", read-only)\r\ntcs> "
    case Signing(p, l) => "TCS SIGNED TERMINAL READY (" + ProfileName(p) + ", " + LaunchName(l) + ")\r\ntcs> "
  }

  function HelpText(build: Build): (text: string)
    ensures |text| <= 130
  {
    if build.Signing? then
      "help | version | status | read <generation> | submit\r\nSigned packets only; no plaintext administration.\r\n"
    else "help | version | status | read <generation>\r\nNo administration commands.\r\n"
  }

  function VersionText(build: Build): (text: string)
    ensures |text| <= 130
  {
    match build
    case ReadOnly(p) => "TCS 0.2-dev / " + ProfileName(p) + " / read-only terminal\r\n"
    case Signing(p, l) => "TCS 0.2-dev / " + ProfileName(p) + " / " + LaunchName(l) + " signed terminal\r\n"
  }

  function StateName(state: u64): (text: string)
    ensures |text| <= 11
  {
    if state == ACTIVE then "active" else if state == QUARANTINED then "quarantined" else "restricted"
  }

  function SnapshotResponse(m: Message): Snapshot {
    var invalid := Snapshot(BAD_MESSAGE, 0, 0, 0, 0);
    if m.tag == TCS_REPLY then
      var r := TcsResponse(m);
      if DENIED <= r.status <= EXHAUSTED && r.value == 0 then Snapshot(r.status, 0, 0, 0, 0) else invalid
    else if !Is(m, SNAPSHOT_REPLY, 4) then invalid
    else
      var s := Snapshot(OK, m.words[0], m.words[1], m.words[2], m.words[3]);
      if SnapshotValid(s) then s else invalid
  }

  // A status the policy owner sends is the status read, and only such a reply
  // reads as a status.
  lemma SnapshotRoundTrip(s: Snapshot)
    ensures SnapshotResponse(SnapshotReply(s)) ==
              if SnapshotValid(s) then s
              else Snapshot(if DENIED <= s.status <= EXHAUSTED then s.status else BAD_MESSAGE, 0, 0, 0, 0)
  {
  }

  lemma SnapshotReadExactly(m: Message)
    ensures var s := SnapshotResponse(m);
            && (s.status == OK ==> SnapshotValid(s) && m == SnapshotReply(s))
            && (s.status != OK ==> DENIED <= s.status <= EXHAUSTED && s == Snapshot(s.status, 0, 0, 0, 0))
  {
    if Is(m, SNAPSHOT_REPLY, 4) { assert m.words == [m.words[0], m.words[1], m.words[2], m.words[3]]; }
  }

  function StatusText(s: Snapshot): (text: string)
    ensures |text| <= 130
  {
    (if s.status == OK then
       "SELF state=" + StateName(s.state) + " generation=" + Printed(s.generation)
       + " object=" + Printed(s.obj) + " rights=" + Printed(s.rights)
     else "STATUS UNAVAILABLE status=" + Printed(s.status)) + "\r\n"
  }

  function ReadText(r: Result): (text: string)
    ensures |text| <= 130
  {
    (if r.status == OK then "READ OK value=" + Printed(r.value) else "READ DENIED status=" + Printed(r.status)) + "\r\n"
  }

  // ---------- what is printed can be read ----------

  predicate NumberEnds(rest: string) { rest == "" || !('0' <= rest[0] <= '9') }

  lemma PrintedDigits(v: u64)
    ensures Printed(v) != "" && forall i | 0 <= i < |Printed(v)| :: '0' <= Printed(v)[i] <= '9'
  {
    ValueOfDecimal(v);
    assert AllDigits(Decimal(v));
  }

  lemma PrintedUnique(v: u64, w: u64)
    requires Printed(v) == Printed(w)
    ensures v == w
  {
    ValueOfDecimal(v);
    ValueOfDecimal(w);
    forall i | 0 <= i < |Decimal(v)| ensures Decimal(v)[i] == Decimal(w)[i] {
      assert Printed(v)[i] == Printed(w)[i];
    }
    assert Decimal(v) == Decimal(w);
  }

  lemma NotShorter(v: u64, rest: string, w: u64, tail: string)
    requires NumberEnds(rest) && Printed(v) + rest == Printed(w) + tail
    ensures |Printed(v)| >= |Printed(w)|
  {
    hide Printed;
    PrintedDigits(w);
    var text, m, n := Printed(v) + rest, |Printed(v)|, |Printed(w)|;
    assert rest != "" ==> text[m] == rest[0];
    assert forall i | 0 <= i < n :: text[i] == Printed(w)[i];
  }

  // A number at the start of a text can be told from what follows it.
  lemma NumberReads(v: u64, rest: string, w: u64, tail: string)
    requires NumberEnds(rest) && NumberEnds(tail) && Printed(v) + rest == Printed(w) + tail
    ensures v == w && rest == tail
  {
    hide Printed;
    var text, n := Printed(v) + rest, |Printed(v)|;
    NotShorter(v, rest, w, tail);
    NotShorter(w, tail, v, rest);
    assert text[..n] == Printed(v) && text[..n] == Printed(w) && text[n..] == rest && text[n..] == tail;
    PrintedUnique(v, w);
  }

  // The same after the same words.
  lemma FieldReads(words: string, v: u64, rest: string, w: u64, tail: string)
    requires NumberEnds(rest) && NumberEnds(tail) && words + Printed(v) + rest == words + Printed(w) + tail
    ensures v == w && rest == tail
  {
    hide Printed;
    var text := words + Printed(v) + rest;
    assert text[|words|..] == Printed(v) + rest && text[|words|..] == Printed(w) + tail;
    NumberReads(v, rest, w, tail);
  }

  // The line printed for a read tells whether it was granted, and the number.
  lemma ReadTextReads(a: Result, b: Result)
    requires ReadText(a) == ReadText(b)
    ensures if a.status == OK then b == a else b.status == a.status
  {
    hide Printed;
    assert ReadText(a)[5] == if a.status == OK then 'O' else 'D';
    assert ReadText(b)[5] == if b.status == OK then 'O' else 'D';
    if a.status == OK {
      FieldReads("READ OK value=", a.value, "\r\n", b.value, "\r\n");
    } else {
      FieldReads("READ DENIED status=", a.status, "\r\n", b.status, "\r\n");
    }
  }

  // What a command prints, given the reply to its call if it makes one.
  function CommandText(build: Build, t: Typed, reply: Message): (text: string)
    ensures |text| <= 130
  {
    match t
    case Empty => ""
    case Help => HelpText(build)
    case Version => VersionText(build)
    case Status => StatusText(SnapshotResponse(reply))
    case Read(g) => ReadText(TcsResponse(reply))
    case Invalid => "ERROR unknown or malformed command\r\n"
  }

  function ReceiptText(r: Receipt): (text: string)
    ensures |text| <= 200
  {
    "ADMIN seq=" + Printed(r.command.sequence) + " decision=" + Printed(r.decision) + " audit=" + Printed(r.auditOk)
    + " applied=" + Printed(r.applied) + " state=" + Printed(r.post.state) + " generation=" + Printed(r.post.generation)
    + "\r\n"
  }

  // The tails of that line, field by field.
  function FromGeneration(r: Receipt): string { " generation=" + Printed(r.post.generation) + "\r\n" }

  function FromState(r: Receipt): string { " state=" + Printed(r.post.state) + FromGeneration(r) }

  function FromApplied(r: Receipt): string { " applied=" + Printed(r.applied) + FromState(r) }

  function FromAudit(r: Receipt): string { " audit=" + Printed(r.auditOk) + FromApplied(r) }

  function FromDecision(r: Receipt): string { " decision=" + Printed(r.decision) + FromAudit(r) }

  lemma ReceiptFields(r: Receipt)
    ensures ReceiptText(r) == "ADMIN seq=" + Printed(r.command.sequence) + FromDecision(r)
    ensures NumberEnds(FromDecision(r)) && NumberEnds(FromAudit(r)) && NumberEnds(FromApplied(r))
    ensures NumberEnds(FromState(r)) && NumberEnds(FromGeneration(r))
  {
    hide Printed;
  }

  lemma LineEnds()
    ensures NumberEnds("\r\n")
  {
  }

  // The line printed for a receipt tells every number in it.
  lemma ReceiptTextReads(a: Receipt, b: Receipt)
    requires ReceiptText(a) == ReceiptText(b)
    ensures a.command.sequence == b.command.sequence && a.decision == b.decision && a.auditOk == b.auditOk
    ensures a.applied == b.applied && a.post.state == b.post.state && a.post.generation == b.post.generation
  {
    hide Printed, ReceiptText, NumberEnds;
    ReceiptFields(a);
    ReceiptFields(b);
    assert NumberEnds("\r\n") by { LineEnds(); }
    FieldReads("ADMIN seq=", a.command.sequence, FromDecision(a), b.command.sequence, FromDecision(b));
    FieldReads(" decision=", a.decision, FromAudit(a), b.decision, FromAudit(b));
    FieldReads(" audit=", a.auditOk, FromApplied(a), b.auditOk, FromApplied(b));
    FieldReads(" applied=", a.applied, FromState(a), b.applied, FromState(b));
    FieldReads(" state=", a.post.state, FromGeneration(a), b.post.state, FromGeneration(b));
    FieldReads(" generation=", a.post.generation, "\r\n", b.post.generation, "\r\n");
  }

  predicate Refusal(m: Message) { Is(m, S.ADMIN_ADMISSION, 1) && A.ACCEPTED < m.words[0] <= A.BAD_COMPLETION }

  // What the administrator's reply to a submitted packet prints. Only a receipt
  // that is possible for the packet's own command is shown as an outcome.
  function SubmitText(c: Command, reply: Message): (text: string)
    ensures |text| <= 200
  {
    var receipt := S.ReceiptDecode(reply);
    if receipt.Some? && ReceiptValid(c, receipt.value) then ReceiptText(receipt.value)
    else if !Refusal(reply) then "ADMIN UNAVAILABLE; do not retry an uncertain request\r\n"
    else if reply.words[0] == A.BAD_COMPLETION then "ADMIN UNCERTAIN; do not retry or advance sequence\r\n"
    else "ADMIN REJECTED status=" + Printed(reply.words[0]) + "\r\n"
  }

  lemma PossibleReceipt(c: Command, r: Receipt)
    requires ReceiptValid(c, r)
    ensures r.command.request.generation == 0 && r.post.status == OK
  {
  }

  // Each answer of the administrator prints as what it is: a receipt of this
  // command as its outcome, a refusal with its number, and uncertainty as such.
  lemma SubmitOutcome(c: Command, r: Receipt, status: u64)
    ensures ReceiptValid(c, r) ==> SubmitText(c, S.ReceiptReply(r)) == ReceiptText(r)
    ensures A.ACCEPTED < status < A.BAD_COMPLETION ==>
              SubmitText(c, S.AdmissionReply(status)) == "ADMIN REJECTED status=" + Printed(status) + "\r\n"
    ensures SubmitText(c, S.AdmissionReply(A.BAD_COMPLETION)) == "ADMIN UNCERTAIN; do not retry or advance sequence\r\n"
  {
    hide ReceiptValid, ReceiptText, Printed;
    if ReceiptValid(c, r) {
      assert r.command.request.generation == 0 && r.post.status == OK by { PossibleReceipt(c, r); }
      S.ReceiptRoundTrip(r);
    }
  }

  predicate Proven(act: Action) { act.Submit? ==> |act.digits| == DIGITS && AllHex(act.digits) }

  ghost function ActionText(build: Build, act: Action, reply: Message): (text: string)
    requires Proven(act)
    ensures |text| <= 210
  {
    match act
    case Run(text) => CommandText(build, Meaning(text), reply) + PROMPT
    case OpenPacket => "Enter exactly 384 lowercase hex digits; Enter submits, Ctrl-C cancels.\r\npacket> "
    case Submit(digits) => SubmitText(A.Fields(Filled(digits)), reply) + PROMPT
    case RefuseLine => "ERROR discarded input line\r\ntcs> "
    case CancelLine => "CANCELLED\r\ntcs> "
    case RefusePacket => "ERROR discarded signed packet\r\n" + PROMPT
    case CancelPacket => "CANCELLED\r\n" + PROMPT
  }

  function CommandCalls(t: Typed): seq<Message> {
    match t
    case Status => [Message(CLIENT_STATUS, [])]
    case Read(g) => [Message(CLIENT_READ, [OBJECT, READ, g])]
    case _ => []
  }

  // The call an action makes to the client or the administrator.
  ghost function ActionCalls(act: Action): seq<Message>
    requires Proven(act)
  {
    match act
    case Run(text) => CommandCalls(Meaning(text))
    case Submit(digits) => [Message(S.ADMIN_SUBMIT, Packed(Filled(digits)))]
    case _ => []
  }

  const LOSS_TEXT := "\r\nINPUT LOST; discard until Enter or Ctrl-C\r\n"
}

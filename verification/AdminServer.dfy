// include/tcs/admin_server.h and servers/admin_policy.c: the administrator
// forwards an admitted command once, the policy owner executes it at most once,
// and the receipt alone decides whether the command counts as completed.

module AdminServer {
  import opened Words
  import opened Messages
  import opened Codec
  import opened Policy
  import opened AuditServer
  import opened PolicyServer
  import opened AdminReceipt
  import A = Admin

  const ADMIN_SUBMIT: u64 := 0x201
  const ADMIN_EXECUTE: u64 := 0x202
  const ADMIN_RECEIPT: u64 := 0x280
  const ADMIN_ADMISSION: u64 := 0x281
  const PACKET_WORDS := 24
  const RECEIPT_WORDS := 13

  // ---------- the wire ----------

  function ExecutionWords(c: Command): seq<u64> {
    [c.sequence, c.expected, c.request.op, c.request.subject, c.request.obj, c.request.rights]
  }

  function ExecutionFrom(words: seq<u64>): Command
    requires |words| >= 6
  {
    Command(words[0], words[1], Request(words[2], words[3], words[4], words[5], 0))
  }

  function ReceiptReply(r: Receipt): Message {
    Message(ADMIN_RECEIPT, ExecutionWords(r.command)
                           + [r.decision, r.auditOk, r.applied, r.post.state, r.post.generation, r.post.obj, r.post.rights])
  }

  function ReceiptDecode(m: Message): Option<Receipt> {
    if !Is(m, ADMIN_RECEIPT, RECEIPT_WORDS) then None
    else Some(Receipt(ExecutionFrom(m.words), m.words[6], m.words[7], m.words[8],
                      Snapshot(OK, m.words[9], m.words[10], m.words[11], m.words[12])))
  }

  function AdmissionReply(status: u64): Message { Message(ADMIN_ADMISSION, [status]) }

  // The decoder loses exactly what every valid receipt leaves at zero.
  lemma ReceiptRoundTrip(r: Receipt)
    ensures ReceiptDecode(ReceiptReply(r)) == Some(r) <==> r.command.request.generation == 0 && r.post.status == OK
    ensures forall m :: ReceiptDecode(m).Some? ==> ReceiptReply(ReceiptDecode(m).value) == m
  {
    forall m | ReceiptDecode(m).Some? ensures ReceiptReply(ReceiptDecode(m).value) == m {
      assert ReceiptReply(ReceiptDecode(m).value).words == m.words;
    }
  }

  // ---------- the policy owner ----------

  datatype Host = Host(live: Policy, ready: bool, sequence: u64, exhausted: bool)

  // An audit acknowledgement counts only with the right shape and a possible count.
  predicate Acknowledged(reply: Message) {
    var r := TcsResponse(reply);
    r.status == OK && 1 <= r.value <= CAPACITY
  }

  // The command this message makes the owner execute, if any.
  function Taken(h: Host, m: Message): Option<Command> {
    if !h.ready || !Is(m, ADMIN_EXECUTE, 6) then None
    else
      var c := ExecutionFrom(m.words);
      if ExecutionValid(c) && !h.exhausted && c.sequence == h.sequence then Some(c) else None
  }

  // Channel 0 is the administrator's. Execution consumes the sequence whatever
  // the decision and the audit say.
  function Executes(h: Host, m: Message, audit: bool): (Host, Message) {
    if !h.ready then (h, TcsReply(Result(DENIED, 0)))
    else if !Is(m, ADMIN_EXECUTE, 6) || !ExecutionValid(ExecutionFrom(m.words)) then (h, TcsReply(Result(BAD_MESSAGE, 0)))
    else if Taken(h, m).None? then (h, TcsReply(Result(STALE, 0)))
    else
      var c := Taken(h, m).value;
      var (live, receipt) := Executed(h.live, c, audit);
      (Host(live, true, if h.sequence == U64_MAX then h.sequence else h.sequence + 1, h.sequence == U64_MAX),
       ReceiptReply(receipt))
  }

  // Channel 1 is storage's: ordinary requests and the client's own status.
  function Ordinarily(h: Host, m: Message, audit: bool): (Host, Message) {
    if !h.ready then (h, TcsReply(Result(DENIED, 0)))
    else if m.tag == SELF_STATUS then
      (h, if |m.words| != 0 then TcsReply(Result(BAD_MESSAGE, 0)) else SnapshotReply(SelfStatus(h.live, Storage)))
    else if !IsRequest(m) then (h, TcsReply(Result(BAD_MESSAGE, 0)))
    else
      var (candidate, decision) := Decide(h.live, Storage, RequestOf(m));
      var (live, committed) := Commit(h.live, candidate, RequestOf(m), decision, audit);
      (h.(live := live), TcsReply(committed))
  }

  // ---------- the administrator's request ----------

  // `delivered` is what arrives in place of the policy owner's reply, if anything.
  function Requested(a: A.Adm, h: Host, ch: u64, m: Message, audit: bool, delivered: Option<Message>, verify: A.Verifier)
    : (A.Adm, Host, Message)
  {
    if ch != 0 then (a, h, TcsReply(Result(DENIED, 0)))
    else if !Is(m, ADMIN_SUBMIT, PACKET_WORDS) then (a, h, AdmissionReply(A.BAD_PACKET))
    else
      var (a1, status, c) := A.Admitted(a, Unpacked(m.words), verify);
      if status != A.ACCEPTED then (a1, h, AdmissionReply(status))
      else
        var (h1, honest) := Executes(h, Message(ADMIN_EXECUTE, ExecutionWords(c)), audit);
        var receipt := ReceiptDecode(if delivered.Some? then delivered.value else honest);
        if receipt.None? || !ReceiptValid(c, receipt.value) then (a1, h1, AdmissionReply(A.BAD_COMPLETION))
        else
          var (a2, completed) := A.Completed(a1, c.sequence);
          if completed != A.ACCEPTED then (a2, h1, AdmissionReply(A.BAD_COMPLETION))
          else (a2, h1, ReceiptReply(receipt.value))
  }

  // ---------- runs ----------

  // An executed command with the signature it was admitted under.
  datatype Order = Order(command: Command, signature: Bytes)

  datatype Office = Office(a: A.Adm, h: Host, done: seq<Order>)

  datatype Act =
    | Submit(ch: u64, m: Message, audit: bool, delivered: Option<Message>)
    | Use(m: Message, audit: bool)

  // What the submission makes the policy owner execute.
  function NewOrders(o: Office, act: Act, verify: A.Verifier): seq<Order> {
    if act.Submit? && act.ch == 0 && Is(act.m, ADMIN_SUBMIT, PACKET_WORDS)
       && A.Admitted(o.a, Unpacked(act.m.words), verify).1 == A.ACCEPTED
    then
      var c := A.Admitted(o.a, Unpacked(act.m.words), verify).2;
      if Taken(o.h, Message(ADMIN_EXECUTE, ExecutionWords(c))).Some? then [Order(c, Unpacked(act.m.words)[128..])] else []
    else []
  }

  function Acted(o: Office, act: Act, verify: A.Verifier): Office {
    match act
    case Submit(ch, m, audit, delivered) =>
      var (a, h, reply) := Requested(o.a, o.h, ch, m, audit, delivered, verify);
      Office(a, h, o.done + NewOrders(o, act, verify))
    case Use(m, audit) => o.(h := Ordinarily(o.h, m, audit).0)
  }

  function Opened(key: Bytes, realm: Bytes, boot: Bytes): Office {
    Office(A.Adm(key, realm, boot, 1, 0, true, false), Host(INITIAL, true, 1, false), [])
  }

  function OfficeAt(start: Office, acts: seq<Act>, n: nat, verify: A.Verifier): Office
    requires n <= |acts|
  {
    if n == 0 then start else Acted(OfficeAt(start, acts, n - 1, verify), acts[n - 1], verify)
  }

  ghost predicate Authentic(a: A.Adm, order: Order, verify: A.Verifier) {
    && ExecutionValid(order.command)
    && verify(a.key, A.Canonical(a.realm, a.boot, order.command), order.signature)
  }

  ghost predicate Lockstep(o: Office, verify: A.Verifier) {
    && A.Ready(o.a) && o.h.ready && Presentable(o.h.live) && o.a.next != 0
    && o.h.sequence == o.a.next && o.h.exhausted == o.a.exhausted
    && (o.a.exhausted ==> o.a.next == U64_MAX)
    && |o.done| == (if o.a.exhausted then U64_MAX else o.a.next - 1)
    && (o.a.pending == 0 || o.a.pending == |o.done|)
    && (forall i | 0 <= i < |o.done| :: o.done[i].command.sequence == i + 1 && Authentic(o.a, o.done[i], verify))
  }

  lemma ReceiptRoundTripBack(m: Message)
    ensures ReceiptDecode(m).Some? ==> ReceiptReply(ReceiptDecode(m).value) == m
  {
    ReceiptRoundTrip(Receipt(A.NOTHING, 0, 0, 0, Snapshot(0, 0, 0, 0, 0)));
  }

  // The owner's side of it.
  lemma ExecutesAdmitted(h: Host, c: Command, audit: bool)
    requires h.ready && !h.exhausted && ExecutionValid(c) && c.sequence == h.sequence
    ensures var m := Message(ADMIN_EXECUTE, ExecutionWords(c));
            var (live, receipt) := Executed(h.live, c, audit);
            && Taken(h, m) == Some(c)
            && Executes(h, m, audit) ==
               (Host(live, true, if h.sequence == U64_MAX then h.sequence else h.sequence + 1, h.sequence == U64_MAX),
                ReceiptReply(receipt))
  {
    hide Executed, ReceiptReply;
    assert ExecutionFrom(ExecutionWords(c)) == c;
  }

  // A forwarded command is always executed: the owner's sequence is the
  // administrator's.
  lemma ForwardedIsExecuted(o: Office, m: Message, audit: bool, delivered: Option<Message>, verify: A.Verifier)
    requires Lockstep(o, verify) && Is(m, ADMIN_SUBMIT, PACKET_WORDS)
    requires A.AdmitStatus(o.a, Unpacked(m.words), verify) == A.ACCEPTED
    ensures var c := A.Fields(Unpacked(m.words));
            var (live, receipt) := Executed(o.h.live, c, audit);
            var (a, h, reply) := Requested(o.a, o.h, 0, m, audit, delivered, verify);
            var arrived := if delivered.Some? then delivered.value else ReceiptReply(receipt);
            var good := ReceiptDecode(arrived).Some? && ReceiptValid(c, ReceiptDecode(arrived).value);
            && Taken(o.h, Message(ADMIN_EXECUTE, ExecutionWords(c))) == Some(c)
            && h == Host(live, true, A.Admitted(o.a, Unpacked(m.words), verify).0.next, c.sequence == U64_MAX)
            && a == A.Admitted(o.a, Unpacked(m.words), verify).0.(pending := if good then 0 else c.sequence)
            && reply == if good then arrived else AdmissionReply(A.BAD_COMPLETION)
  {
    hide Executed, ReceiptValid, ReceiptDecode, ReceiptReply, Executes, Taken, A.Fields;
    var c := A.Fields(Unpacked(m.words));
    A.AcceptedIsCanonical(o.a, Unpacked(m.words), verify);
    ExecutesAdmitted(o.h, c, audit);
    if delivered.Some? { ReceiptRoundTripBack(delivered.value); }
    ReceiptRoundTripBack(ReceiptReply(Executed(o.h.live, c, audit).1));
  }

  lemma ExecutedPresentable(p: Policy, c: Command, audit: bool)
    requires Presentable(p) && ExecutionValid(c)
    ensures Presentable(Executed(p, c, audit).0)
  {
    DonePresentable(p, Conditional(c, audit));
  }

  lemma AcceptedLockstep(o: Office, act: Act, verify: A.Verifier)
    requires Lockstep(o, verify) && act.Submit? && act.ch == 0 && Is(act.m, ADMIN_SUBMIT, PACKET_WORDS)
    requires A.AdmitStatus(o.a, Unpacked(act.m.words), verify) == A.ACCEPTED
    ensures Lockstep(Acted(o, act, verify), verify)
  {
    hide Requested, Executed, Taken, ReceiptValid, Presentable;
    var packet := Unpacked(act.m.words);
    var c := A.Fields(packet);
    A.AcceptedIsCanonical(o.a, packet, verify);
    assert ExecutionValid(c) && c.sequence == o.a.next && A.Admitted(o.a, packet, verify).2 == c;
    ForwardedIsExecuted(o, act.m, act.audit, act.delivered, verify);
    ExecutedPresentable(o.h.live, c, act.audit);
    assert Authentic(o.a, Order(c, packet[128..]), verify);
  }

  lemma ActedLockstep(o: Office, act: Act, verify: A.Verifier)
    requires Lockstep(o, verify)
    ensures Lockstep(Acted(o, act, verify), verify)
    ensures o.a.pending != 0 ==> Acted(o, act, verify).a == o.a && Acted(o, act, verify).done == o.done
  {
    hide Executes, Decide, ReceiptValid;
    if act.Use? {
      if IsRequest(act.m) { DonePresentable(o.h.live, Plain(Storage, RequestOf(act.m), act.audit)); }
    } else if act.ch == 0 && Is(act.m, ADMIN_SUBMIT, PACKET_WORDS)
              && A.AdmitStatus(o.a, Unpacked(act.m.words), verify) == A.ACCEPTED {
      AcceptedLockstep(o, act, verify);
    }
  }

  // The administrator was opened with this identity.
  predicate Belongs(a: A.Adm, key: Bytes, realm: Bytes, boot: Bytes) { a.key == key && a.realm == realm && a.boot == boot }

  lemma ActedBelongs(o: Office, act: Act, verify: A.Verifier)
    ensures Belongs(Acted(o, act, verify).a, o.a.key, o.a.realm, o.a.boot)
  {
    hide Executes, ReceiptValid, A.AdmitStatus;
  }

  // Whatever replies arrive and whatever the audit does, both sides agree on the
  // next sequence, the executed commands are numbered 1, 2, 3, ... without gap or
  // repeat, and each was signed with this key for this realm and boot.
  lemma {:induction false} ExactlyOnce(key: Bytes, realm: Bytes, boot: Bytes, acts: seq<Act>, n: nat, verify: A.Verifier)
    requires n <= |acts| && |key| == |realm| == |boot| == 32
    ensures Lockstep(OfficeAt(Opened(key, realm, boot), acts, n, verify), verify)
    ensures Belongs(OfficeAt(Opened(key, realm, boot), acts, n, verify).a, key, realm, boot)
  {
    hide Acted;
    if n > 0 {
      ExactlyOnce(key, realm, boot, acts, n - 1, verify);
      var o := OfficeAt(Opened(key, realm, boot), acts, n - 1, verify);
      ActedLockstep(o, acts[n - 1], verify);
      ActedBelongs(o, acts[n - 1], verify);
    }
  }

  // An uncertain reply is final: nothing is ever executed after it.
  lemma {:induction false} UncertainIsFinal(key: Bytes, realm: Bytes, boot: Bytes, acts: seq<Act>, m: nat, n: nat, verify: A.Verifier)
    requires m <= n <= |acts| && |key| == |realm| == |boot| == 32
    requires OfficeAt(Opened(key, realm, boot), acts, m, verify).a.pending != 0
    ensures OfficeAt(Opened(key, realm, boot), acts, n, verify).done == OfficeAt(Opened(key, realm, boot), acts, m, verify).done
    ensures OfficeAt(Opened(key, realm, boot), acts, n, verify).a == OfficeAt(Opened(key, realm, boot), acts, m, verify).a
    decreases n
  {
    hide Acted, Lockstep;
    if m < n {
      UncertainIsFinal(key, realm, boot, acts, m, n - 1, verify);
      ExactlyOnce(key, realm, boot, acts, n - 1, verify);
      ActedLockstep(OfficeAt(Opened(key, realm, boot), acts, n - 1, verify), acts[n - 1], verify);
    }
  }

  // With honest replies every admitted command completes at once, and the reply
  // decodes to the receipt of its execution against the live policy.
  lemma HonestCompletes(o: Office, m: Message, audit: bool, verify: A.Verifier)
    requires Lockstep(o, verify) && Is(m, ADMIN_SUBMIT, PACKET_WORDS)
    requires A.AdmitStatus(o.a, Unpacked(m.words), verify) == A.ACCEPTED
    ensures var c := A.Fields(Unpacked(m.words));
            var (a, h, reply) := Requested(o.a, o.h, 0, m, audit, None, verify);
            && a.pending == 0
            && h.live == Executed(o.h.live, c, audit).0
            && ReceiptDecode(reply) == Some(Executed(o.h.live, c, audit).1)
            && ReceiptDecode(reply).value.post == SnapshotOf(h.live[c.request.subject])
  {
    var c := A.Fields(Unpacked(m.words));
    ForwardedIsExecuted(o, m, audit, None, verify);
    A.AcceptedIsCanonical(o.a, Unpacked(m.words), verify);
    HonestReceiptValid(o.h.live, c, audit);
    ReceiptRoundTrip(Executed(o.h.live, c, audit).1);
  }

  // ---------- where authority comes from ----------

  // Executed order k granted subject i its generation g.
  predicate Grants(done: seq<Order>, k: nat, i: u64, g: u64) {
    k < |done| && var c := done[k].command; c.request.op == GRANT && c.request.subject == i && c.expected + 1 == g
  }

  ghost predicate GrantedBy(done: seq<Order>, i: u64, g: u64) { exists k: nat :: Grants(done, k, i, g) }

  ghost predicate Sourced(o: Office) {
    forall i: u64 | i < SUBJECTS :: o.h.live[i].state == ACTIVE ==> GrantedBy(o.done, i, o.h.live[i].generation)
  }

  // Execution makes a subject active only by its own grant, one generation after
  // the expected one.
  lemma ExecutedActive(p: Policy, c: Command, audit: bool, i: u64)
    requires ExecutionValid(c) && i < SUBJECTS && Executed(p, c, audit).0[i].state == ACTIVE
    ensures var s := Executed(p, c, audit).0[i];
            s == p[i] || (c.request.op == GRANT && c.request.subject == i && c.expected + 1 == s.generation)
  {
  }

  // Storage and the client can look at authority but not change it.
  lemma UseChangesNothing(h: Host, m: Message, audit: bool)
    ensures Ordinarily(h, m, audit).0 == h
  {
  }

  lemma SourcedMore(done: seq<Order>, more: seq<Order>, i: u64, g: u64)
    requires GrantedBy(done, i, g)
    ensures GrantedBy(done + more, i, g)
  {
    var k: nat :| Grants(done, k, i, g);
    assert Grants(done + more, k, i, g);
  }

  lemma AcceptedSourced(o: Office, act: Act, verify: A.Verifier)
    requires Lockstep(o, verify) && Sourced(o) && act.Submit? && act.ch == 0 && Is(act.m, ADMIN_SUBMIT, PACKET_WORDS)
    requires A.AdmitStatus(o.a, Unpacked(act.m.words), verify) == A.ACCEPTED
    ensures Sourced(Acted(o, act, verify))
  {
    hide Requested, Executed, Taken, ReceiptValid, Presentable;
    var packet := Unpacked(act.m.words);
    var c := A.Fields(packet);
    A.AcceptedIsCanonical(o.a, packet, verify);
    ForwardedIsExecuted(o, act.m, act.audit, act.delivered, verify);
    var next, order := Acted(o, act, verify), Order(c, packet[128..]);
    assert next.done == o.done + [order];
    forall i: u64 | i < SUBJECTS && next.h.live[i].state == ACTIVE
      ensures GrantedBy(next.done, i, next.h.live[i].generation)
    {
      ExecutedActive(o.h.live, c, act.audit, i);
      if next.h.live[i] == o.h.live[i] {
        SourcedMore(o.done, [order], i, o.h.live[i].generation);
      } else {
        assert Grants(next.done, |o.done|, i, next.h.live[i].generation);
      }
    }
  }

  lemma ActedSourced(o: Office, act: Act, verify: A.Verifier)
    requires Lockstep(o, verify) && Sourced(o)
    ensures Sourced(Acted(o, act, verify))
  {
    hide Executes, Ordinarily, ReceiptValid, Lockstep, GrantedBy;
    if act.Use? {
      UseChangesNothing(o.h, act.m, act.audit);
    } else if act.ch == 0 && Is(act.m, ADMIN_SUBMIT, PACKET_WORDS)
              && A.AdmitStatus(o.a, Unpacked(act.m.words), verify) == A.ACCEPTED {
      AcceptedSourced(o, act, verify);
    } else {
      assert o.done + [] == o.done;
    }
  }

  lemma {:induction false} RunSourced(key: Bytes, realm: Bytes, boot: Bytes, acts: seq<Act>, n: nat, verify: A.Verifier)
    requires n <= |acts| && |key| == |realm| == |boot| == 32
    ensures Sourced(OfficeAt(Opened(key, realm, boot), acts, n, verify))
  {
    hide Acted, Lockstep, GrantedBy;
    if n > 0 {
      RunSourced(key, realm, boot, acts, n - 1, verify);
      ExactlyOnce(key, realm, boot, acts, n - 1, verify);
      ActedSourced(OfficeAt(Opened(key, realm, boot), acts, n - 1, verify), acts[n - 1], verify);
    }
  }

  // The promise of signed administration: whoever holds live authority, in any
  // run, was granted that very generation by an executed command that carries a
  // valid signature under this key for this realm and boot.
  lemma AuthorityIsSigned(key: Bytes, realm: Bytes, boot: Bytes, acts: seq<Act>, n: nat, verify: A.Verifier,
                          i: u64)
    requires n <= |acts| && |key| == |realm| == |boot| == 32 && i < SUBJECTS
    requires OfficeAt(Opened(key, realm, boot), acts, n, verify).h.live[i].state == ACTIVE
    ensures var o := OfficeAt(Opened(key, realm, boot), acts, n, verify);
            exists k: nat :: Grants(o.done, k, i, o.h.live[i].generation)
                        && verify(key, A.Canonical(realm, boot, o.done[k].command), o.done[k].signature)
  {
    hide OfficeAt;
    ExactlyOnce(key, realm, boot, acts, n, verify);
    RunSourced(key, realm, boot, acts, n, verify);
    var o := OfficeAt(Opened(key, realm, boot), acts, n, verify);
    assert GrantedBy(o.done, i, o.h.live[i].generation);
    var k: nat :| Grants(o.done, k, i, o.h.live[i].generation);
    assert Authentic(o.a, o.done[k], verify);
  }

  predicate Carries(act: Act, packet: Bytes) {
    act.Submit? && Is(act.m, ADMIN_SUBMIT, PACKET_WORDS) && Unpacked(act.m.words) == packet
  }

  // One of the first n acts submitted the packet.
  ghost predicate Submitted(acts: seq<Act>, n: nat, packet: Bytes)
    requires n <= |acts|
  {
    exists j :: 0 <= j < n && Carries(acts[j], packet)
  }

  function PacketOf(o: Office, k: nat): Bytes
    requires k < |o.done|
  {
    A.Canonical(o.a.realm, o.a.boot, o.done[k].command) + o.done[k].signature
  }

  lemma NewOrderCarried(o: Office, act: Act, verify: A.Verifier)
    requires A.Ready(o.a)
    ensures |NewOrders(o, act, verify)| <= 1
    ensures NewOrders(o, act, verify) != [] ==>
              var order := NewOrders(o, act, verify)[0];
              Carries(act, A.Canonical(o.a.realm, o.a.boot, order.command) + order.signature)
  {
    hide A.Canonical, Taken;
    if NewOrders(o, act, verify) != [] {
      var packet := Unpacked(act.m.words);
      A.AcceptedIsCanonical(o.a, packet, verify);
      assert packet == packet[..128] + packet[128..];
    }
  }

  lemma LockstepReady(o: Office, verify: A.Verifier)
    requires Lockstep(o, verify)
    ensures A.Ready(o.a)
  {
  }

  // Every executed order was a submitted packet.
  lemma {:induction false} OrdersSubmitted(key: Bytes, realm: Bytes, boot: Bytes, acts: seq<Act>, n: nat, verify: A.Verifier,
                                           k: nat)
    requires n <= |acts| && |key| == |realm| == |boot| == 32
    requires k < |OfficeAt(Opened(key, realm, boot), acts, n, verify).done|
    ensures Submitted(acts, n, PacketOf(OfficeAt(Opened(key, realm, boot), acts, n, verify), k))
    decreases n
  {
    hide NewOrders, Carries, Lockstep, A.Canonical, Requested, Ordinarily;
    if n > 0 {
      var o, act := OfficeAt(Opened(key, realm, boot), acts, n - 1, verify), acts[n - 1];
      ExactlyOnce(key, realm, boot, acts, n - 1, verify);
      ActedBelongs(o, act, verify);
      if k < |o.done| {
        OrdersSubmitted(key, realm, boot, acts, n - 1, verify, k);
      } else {
        assert A.Ready(o.a) by { LockstepReady(o, verify); }
        NewOrderCarried(o, act, verify);
        assert Acted(o, act, verify).done == o.done + NewOrders(o, act, verify);
        assert Carries(acts[n - 1], PacketOf(Acted(o, act, verify), k));
      }
    }
  }

  // ---------- the C code ----------

  // What the policy owner asks the audit server to record for this message.
  function AuditRequest(h: Host, ch: u64, m: Message): Option<Message> {
    if !h.ready then None
    else if ch == 1 then
      if m.tag == SELF_STATUS || !IsRequest(m) then None
      else Some(Message(AUDIT_APPEND, RecordOf(Storage, RequestOf(m), Decide(h.live, Storage, RequestOf(m)).1.status)))
    else if ch != 0 || Taken(h, m).None? then None
    else
      var c := Taken(h, m).value;
      Some(Message(AUDIT_APPEND, RecordOf(Admin, c.request, CompareDecide(h.live, Admin, c).1.status)))
  }

  class PolicyHost {
    const live: PolicyOwner
    var ready: bool
    var sequence: u64
    var exhausted: bool

    constructor ()
      ensures fresh(live) && View() == Host(INITIAL, false, 1, false)
    {
      live := new PolicyOwner(INITIAL);
      ready, sequence, exhausted := false, 1, false;
    }

    function View(): Host
      reads this, live
    {
      Host(live.policy, ready, sequence, exhausted)
    }

    method Init()
      modifies this
      ensures View() == old(View()).(ready := true)
    {
      ready := true;
    }

    // `answer` is what comes back from the audit channel.
    method RecordDecision(r: Request, actor: Actor, decision: Result, answer: Message) returns (asked: Message, auditOk: bool)
      ensures asked == Message(AUDIT_APPEND, RecordOf(actor, r, decision.status))
      ensures auditOk <==> Acknowledged(answer)
    {
      asked := Message(AUDIT_APPEND, [r.op, ActorWord(actor), r.subject, r.obj, r.rights, r.generation, decision.status]);
      var logged := TcsResponse(answer);
      auditOk := logged.status == OK && logged.value >= 1 && logged.value <= CAPACITY;
    }

    method Protected(ch: u64, m: Message, answer: Message) returns (reply: Message, asked: Option<Message>)
      modifies this, live
      ensures asked == AuditRequest(old(View()), ch, m)
      ensures ch == 0 ==> (View(), reply) == Executes(old(View()), m, Acknowledged(answer))
      ensures ch == 1 ==> (View(), reply) == Ordinarily(old(View()), m, Acknowledged(answer))
      ensures ch > 1 ==> View() == old(View()) && reply == TcsReply(Result(DENIED, 0))
    {
      hide Decide, CompareDecide, Commit;
      if !ready || (ch != 0 && ch != 1) { return TcsReply(Result(DENIED, 0)), None; }
      if ch == 1 {
        if m.tag == SELF_STATUS {
          if |m.words| != 0 { return TcsReply(Result(BAD_MESSAGE, 0)), None; }
          return SnapshotReply(SelfStatus(live.policy, Storage)), None;
        }
        if |m.words| != 4 || m.tag < LABEL + GRANT || m.tag > LABEL + RESTORE {
          return TcsReply(Result(BAD_MESSAGE, 0)), None;
        }
        var r := Request(m.tag % 0x100, m.words[0], m.words[1], m.words[2], m.words[3]);
        assert r == RequestOf(m);
        var candidate := new PolicyOwner(live.policy);
        var decision := candidate.Apply(Storage, r);
        var sent, auditOk := RecordDecision(r, Storage, decision, answer);
        var committed := live.CommitFrom(candidate.policy, r, decision, auditOk);
        return TcsReply(committed), Some(sent);
      }
      if !Is(m, ADMIN_EXECUTE, 6) { return TcsReply(Result(BAD_MESSAGE, 0)), None; }
      var c := ExecutionFrom(m.words);
      if !ExecutionValid(c) { return TcsReply(Result(BAD_MESSAGE, 0)), None; }
      if exhausted || c.sequence != sequence { return TcsReply(Result(STALE, 0)), None; }
      if sequence == U64_MAX { exhausted := true; } else { sequence := sequence + 1; }
      var candidate := new PolicyOwner(live.policy);
      var decision := candidate.CompareApply(Admin, c);
      var sent, auditOk := RecordDecision(c.request, Admin, decision, answer);
      var _ := live.CommitFrom(candidate.policy, c.request, decision, auditOk);
      var s := live.policy[c.request.subject];
      var reduction := c.request.op == REVOKE || c.request.op == QUARANTINE;
      var receipt := Receipt(c, decision.status, Flag(auditOk), Flag(decision.status == OK && (auditOk || reduction)),
                             Snapshot(OK, s.state, s.generation, s.obj, s.rights));
      return ReceiptReply(receipt), Some(sent);
    }
  }

  // The administrator's protected entry, with the policy owner behind channel 2:
  // `answer` is the audit server's reply to the owner, `delivered` what reaches
  // the administrator instead of the owner's own reply.
  method Submission(administrator: A.Administrator, host: PolicyHost, ch: u64, m: Message, answer: Message,
                    delivered: Option<Message>)
    returns (reply: Message)
    requires administrator.initialized ==> A.Ready(administrator.View())
    modifies administrator, host, host.live
    ensures (administrator.View(), host.View(), reply)
            == Requested(old(administrator.View()), old(host.View()), ch, m, Acknowledged(answer), delivered, administrator.verify)
  {
    hide Executes, ReceiptValid, A.AdmitStatus;
    if ch != 0 { return TcsReply(Result(DENIED, 0)); }
    if !Is(m, ADMIN_SUBMIT, PACKET_WORDS) { return AdmissionReply(A.BAD_PACKET); }
    var packet := new u8[A.PACKET_BYTES];
    BytesFromWords(packet, m.words);
    var status, command := administrator.Admit(packet[..]);
    if status != A.ACCEPTED { return AdmissionReply(status); }
    var arrived, _ := host.Protected(0, Message(ADMIN_EXECUTE, ExecutionWords(command)), answer);
    if delivered.Some? { arrived := delivered.value; }
    var receipt := ReceiptDecode(arrived);
    if receipt.None? || !ReceiptValid(command, receipt.value) { return AdmissionReply(A.BAD_COMPLETION); }
    var completed := administrator.Complete(command.sequence);
    if completed != A.ACCEPTED { return AdmissionReply(A.BAD_COMPLETION); }
    return ReceiptReply(receipt.value);
  }
}

// servers/admin_policy.c with servers/audit.c behind it: the audit outcome of each
// execution is the audit server's own answer, and the log bounds and explains what
// took effect.

module AdminAudit {
  import opened Words
  import opened Messages
  import opened Codec
  import opened Policy
  import opened AuditServer
  import opened PolicyServer
  import opened AdminReceipt
  import opened AdminServer
  import A = Admin

  datatype Archive = Archive(o: Office, log: Log)

  // An act whose audit outcome is left to the audit server.
  datatype Deal = Submission(ch: u64, m: Message, delivered: Option<Message>) | Use(m: Message)

  // What reaches the policy owner from the administrator.
  function Forwarded(o: Office, ch: u64, m: Message, verify: A.Verifier): Option<Message> {
    if ch != 0 || !Is(m, ADMIN_SUBMIT, PACKET_WORDS) then None
    else
      var (_, status, c) := A.Admitted(o.a, Unpacked(m.words), verify);
      if status != A.ACCEPTED then None else Some(Message(ADMIN_EXECUTE, ExecutionWords(c)))
  }

  // What the policy owner asks to have recorded.
  function Query(o: Office, deal: Deal, verify: A.Verifier): Option<Message> {
    match deal
    case Use(m) => AuditRequest(o.h, 1, m)
    case Submission(ch, m, delivered) =>
      var forwarded := Forwarded(o, ch, m, verify);
      if forwarded.None? then None else AuditRequest(o.h, 0, forwarded.value)
  }

  // The log afterwards, and whether the audit server acknowledged.
  function Answered(a: Archive, deal: Deal, verify: A.Verifier): (Log, bool) {
    var query := Query(a.o, deal, verify);
    if query.None? then (a.log, false)
    else
      var (log, answer) := Audited(a.log, 0, query.value);
      (log, Acknowledged(answer))
  }

  function ActOf(a: Archive, deal: Deal, verify: A.Verifier): Act {
    var audit := Answered(a, deal, verify).1;
    match deal
    case Submission(ch, m, delivered) => Act.Submit(ch, m, audit, delivered)
    case Use(m) => Act.Use(m, audit)
  }

  function Dealt(a: Archive, deal: Deal, verify: A.Verifier): Archive {
    Archive(Acted(a.o, ActOf(a, deal, verify), verify), Answered(a, deal, verify).0)
  }

  function ArchiveAt(start: Office, deals: seq<Deal>, n: nat, verify: A.Verifier): Archive
    requires n <= |deals|
  {
    if n == 0 then Archive(start, []) else Dealt(ArchiveAt(start, deals, n - 1, verify), deals[n - 1], verify)
  }

  // ---------- an office run with one particular audit ----------

  function ActsOf(start: Office, deals: seq<Deal>, n: nat, verify: A.Verifier): (acts: seq<Act>)
    requires n <= |deals|
    ensures |acts| == n
  {
    if n == 0 then []
    else ActsOf(start, deals, n - 1, verify) + [ActOf(ArchiveAt(start, deals, n - 1, verify), deals[n - 1], verify)]
  }

  lemma {:induction false} OfficePrefix(start: Office, acts: seq<Act>, more: seq<Act>, n: nat, verify: A.Verifier)
    requires n <= |acts|
    ensures OfficeAt(start, acts + more, n, verify) == OfficeAt(start, acts, n, verify)
  {
    hide Acted;
    if n > 0 { OfficePrefix(start, acts, more, n - 1, verify); }
  }

  // So everything proved of the office, for any audit outcomes, holds here.
  lemma {:induction false} ArchiveRefines(start: Office, deals: seq<Deal>, n: nat, verify: A.Verifier)
    requires n <= |deals|
    ensures ArchiveAt(start, deals, n, verify).o == OfficeAt(start, ActsOf(start, deals, n, verify), n, verify)
  {
    hide Acted, ActOf;
    if n > 0 {
      ArchiveRefines(start, deals, n - 1, verify);
      var acts := ActsOf(start, deals, n - 1, verify);
      OfficePrefix(start, acts, [ActOf(ArchiveAt(start, deals, n - 1, verify), deals[n - 1], verify)], n - 1, verify);
    }
  }

  // ---------- acknowledged means recorded ----------

  lemma QueryShape(o: Office, deal: Deal, verify: A.Verifier)
    ensures Query(o, deal, verify).Some? ==> Is(Query(o, deal, verify).value, AUDIT_APPEND, FIELDS)
  {
    hide Decide, CompareDecide, A.Admitted, Taken;
  }

  // A record is acknowledged exactly when it is appended, and that is exactly when
  // there is room.
  lemma AnsweredExactly(a: Archive, deal: Deal, verify: A.Verifier)
    ensures var query := Query(a.o, deal, verify);
            Answered(a, deal, verify) ==
              if query.Some? && |a.log| < CAPACITY then (a.log + [query.value.words], true) else (a.log, false)
  {
    hide Query;
    QueryShape(a.o, deal, verify);
  }

  // ---------- the log bounds what takes effect ----------

  // An acknowledged execution, or a check that succeeds.
  predicate Effective(a: Archive, deal: Deal, verify: A.Verifier) {
    match deal
    case Submission(ch, m, delivered) => Answered(a, deal, verify).1
    case Use(m) => IsRequest(m) && TcsResponse(Ordinarily(a.o.h, m, Answered(a, deal, verify).1).1).status == OK
  }

  function Effects(start: Office, deals: seq<Deal>, n: nat, verify: A.Verifier): nat
    requires n <= |deals|
  {
    if n == 0 then 0
    else
      Effects(start, deals, n - 1, verify)
      + if Effective(ArchiveAt(start, deals, n - 1, verify), deals[n - 1], verify) then 1 else 0
  }

  // Without an acknowledgement an ordinary request is refused.
  lemma CheckAcknowledged(h: Host, m: Message, audit: bool)
    requires IsRequest(m) && TcsResponse(Ordinarily(h, m, audit).1).status == OK
    ensures audit
  {
    hide Decide;
  }

  lemma EffectiveRecorded(a: Archive, deal: Deal, verify: A.Verifier)
    requires Effective(a, deal, verify)
    ensures |Dealt(a, deal, verify).log| == |a.log| + 1
  {
    hide Query, Acted, Decide, Answered;
    AnsweredExactly(a, deal, verify);
    if deal.Use? { CheckAcknowledged(a.o.h, deal.m, Answered(a, deal, verify).1); }
  }

  lemma LogGrows(a: Archive, deal: Deal, verify: A.Verifier)
    ensures a.log <= Dealt(a, deal, verify).log
  {
    hide Answered, Query, Acted;
    AnsweredExactly(a, deal, verify);
  }

  // At most 64 acknowledged executions and successful checks in any run.
  lemma {:induction false} LogBounds(start: Office, deals: seq<Deal>, n: nat, verify: A.Verifier)
    requires n <= |deals|
    ensures Effects(start, deals, n, verify) <= |ArchiveAt(start, deals, n, verify).log| <= CAPACITY
  {
    hide Effective, Dealt;
    if n > 0 {
      LogBounds(start, deals, n - 1, verify);
      var a, deal := ArchiveAt(start, deals, n - 1, verify), deals[n - 1];
      LogGrows(a, deal, verify);
      if Effective(a, deal, verify) { EffectiveRecorded(a, deal, verify); }
    }
  }

  // ---------- every authority is on the log ----------

  // Order k granted subject i its generation, and record j says so.
  predicate Vouches(o: Office, log: Log, i: u64, k: nat, j: nat)
    requires i < SUBJECTS
  {
    && Grants(o.done, k, i, o.h.live[i].generation)
    && j < |log| && log[j] == RecordOf(Admin, o.done[k].command.request, OK)
  }

  ghost predicate VouchedFor(o: Office, log: Log, i: u64)
    requires i < SUBJECTS
  {
    exists k: nat, j: nat :: Vouches(o, log, i, k, j)
  }

  ghost predicate Vouched(a: Archive) {
    forall i: u64 | i < SUBJECTS :: a.o.h.live[i].state == ACTIVE ==> VouchedFor(a.o, a.log, i)
  }

  // New authority needs an acknowledged, successful grant.
  lemma ExecutedByGrant(p: Policy, c: Command, audit: bool, i: u64)
    requires ExecutionValid(c) && i < SUBJECTS && Executed(p, c, audit).0[i].state == ACTIVE
    ensures var s := Executed(p, c, audit).0[i];
            s != p[i] ==>
              && audit && CompareDecide(p, Admin, c).1.status == OK
              && c.request.op == GRANT && c.request.subject == i && c.expected + 1 == s.generation
  {
  }

  lemma VouchedMore(o: Office, log: Log, i: u64, next: Office, longer: Log)
    requires i < SUBJECTS && VouchedFor(o, log, i)
    requires o.done <= next.done && log <= longer && next.h.live[i] == o.h.live[i]
    ensures VouchedFor(next, longer, i)
  {
    var k: nat, j: nat :| Vouches(o, log, i, k, j);
    assert next.done[k] == o.done[k] && longer[j] == log[j];
    assert Vouches(next, longer, i, k, j);
  }

  // An admitted command is put on record with the decision on it.
  lemma QueryOfAccepted(o: Office, ch: u64, m: Message, delivered: Option<Message>, verify: A.Verifier)
    requires Lockstep(o, verify) && ch == 0 && Is(m, ADMIN_SUBMIT, PACKET_WORDS)
    requires A.AdmitStatus(o.a, Unpacked(m.words), verify) == A.ACCEPTED
    ensures var c := A.Fields(Unpacked(m.words));
            Query(o, Submission(ch, m, delivered), verify)
            == Some(Message(AUDIT_APPEND, RecordOf(Admin, c.request, CompareDecide(o.h.live, Admin, c).1.status)))
  {
    hide Requested, Executed, Taken, ReceiptValid, Presentable, CompareDecide;
    ForwardedIsExecuted(o, m, false, delivered, verify);
  }

  lemma AcceptedVouched(a: Archive, deal: Deal, verify: A.Verifier)
    requires Lockstep(a.o, verify) && Vouched(a)
    requires deal.Submission? && deal.ch == 0 && Is(deal.m, ADMIN_SUBMIT, PACKET_WORDS)
    requires A.AdmitStatus(a.o.a, Unpacked(deal.m.words), verify) == A.ACCEPTED
    ensures Vouched(Dealt(a, deal, verify))
  {
    hide Requested, Executed, Taken, ReceiptValid, Presentable, Query, Answered, CompareDecide;
    var packet, act, next := Unpacked(deal.m.words), ActOf(a, deal, verify), Dealt(a, deal, verify);
    var c := A.Fields(packet);
    A.AcceptedIsCanonical(a.o.a, packet, verify);
    ForwardedIsExecuted(a.o, deal.m, act.audit, deal.delivered, verify);
    QueryOfAccepted(a.o, deal.ch, deal.m, deal.delivered, verify);
    AnsweredExactly(a, deal, verify);
    assert next.o.done == a.o.done + [Order(c, packet[128..])];
    forall i: u64 | i < SUBJECTS && next.o.h.live[i].state == ACTIVE ensures VouchedFor(next.o, next.log, i) {
      ExecutedByGrant(a.o.h.live, c, act.audit, i);
      if next.o.h.live[i] == a.o.h.live[i] {
        VouchedMore(a.o, a.log, i, next.o, next.log);
      } else {
        assert Vouches(next.o, next.log, i, |a.o.done|, |a.log|);
      }
    }
  }

  lemma DealtVouched(a: Archive, deal: Deal, verify: A.Verifier)
    requires Lockstep(a.o, verify) && Vouched(a)
    ensures Vouched(Dealt(a, deal, verify))
  {
    hide Executes, Ordinarily, ReceiptValid, Lockstep, Query, Answered, VouchedFor;
    var next := Dealt(a, deal, verify);
    if deal.Submission? && deal.ch == 0 && Is(deal.m, ADMIN_SUBMIT, PACKET_WORDS)
       && A.AdmitStatus(a.o.a, Unpacked(deal.m.words), verify) == A.ACCEPTED {
      AcceptedVouched(a, deal, verify);
    } else {
      LogGrows(a, deal, verify);
      if deal.Use? { UseChangesNothing(a.o.h, deal.m, Answered(a, deal, verify).1); }
      assert next.o.h.live == a.o.h.live && next.o.done == a.o.done + [] == a.o.done;
      forall i: u64 | i < SUBJECTS && next.o.h.live[i].state == ACTIVE ensures VouchedFor(next.o, next.log, i) {
        VouchedMore(a.o, a.log, i, next.o, next.log);
      }
    }
  }

  lemma {:induction false} RunVouched(key: Bytes, realm: Bytes, boot: Bytes, deals: seq<Deal>, n: nat, verify: A.Verifier)
    requires n <= |deals| && |key| == |realm| == |boot| == 32
    ensures var a := ArchiveAt(Opened(key, realm, boot), deals, n, verify);
            Vouched(a) && Lockstep(a.o, verify) && Belongs(a.o.a, key, realm, boot)
  {
    hide Dealt, Lockstep, VouchedFor;
    var start := Opened(key, realm, boot);
    ArchiveRefines(start, deals, n, verify);
    ExactlyOnce(key, realm, boot, ActsOf(start, deals, n, verify), n, verify);
    if n > 0 {
      RunVouched(key, realm, boot, deals, n - 1, verify);
      DealtVouched(ArchiveAt(start, deals, n - 1, verify), deals[n - 1], verify);
    }
  }

  // With the audit server behind the policy owner, whoever holds live authority was
  // granted it by a command that was signed under this key for this realm and boot
  // and whose grant is an acknowledged record of the log.
  lemma AuthorityIsRecorded(key: Bytes, realm: Bytes, boot: Bytes, deals: seq<Deal>, n: nat, verify: A.Verifier, i: u64)
    requires n <= |deals| && |key| == |realm| == |boot| == 32 && i < SUBJECTS
    requires ArchiveAt(Opened(key, realm, boot), deals, n, verify).o.h.live[i].state == ACTIVE
    ensures var a := ArchiveAt(Opened(key, realm, boot), deals, n, verify);
            exists k: nat, j: nat :: Vouches(a.o, a.log, i, k, j)
                                     && verify(key, A.Canonical(realm, boot, a.o.done[k].command), a.o.done[k].signature)
  {
    hide ArchiveAt;
    RunVouched(key, realm, boot, deals, n, verify);
    var a := ArchiveAt(Opened(key, realm, boot), deals, n, verify);
    assert VouchedFor(a.o, a.log, i);
    var k: nat, j: nat :| Vouches(a.o, a.log, i, k, j);
    assert Authentic(a.o.a, a.o.done[k], verify);
  }
}

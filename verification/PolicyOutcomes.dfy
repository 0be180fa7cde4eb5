// What the policy owner, its server and the audit server answer and do, case by
// case, and what a caller can rely on between one request and the next.

module PolicyOutcomes {
  import opened Words
  import opened Messages
  import opened Policy
  import opened AuditServer
  import opened PolicyServer
  import opened AdminReceipt

  // ---------- decisions ----------

  // A refusal changes nothing and names no number; a success names the generation
  // its subject has afterwards. Nothing else ever moves.
  lemma DecisionOutcome(p: Policy, actor: Actor, r: Request)
    ensures var (next, d) := Decide(p, actor, r);
            && (d.status == OK ==> r.subject < SUBJECTS && d.value == next[r.subject].generation)
            && (d.status != OK ==> next == p && d.value == 0)
            && (forall i | 0 <= i < SUBJECTS :: i != r.subject ==> next[i] == p[i])
  {
  }

  // A grant of the one object for reading opens the next generation.
  lemma GrantOutcome(p: Policy, i: u64)
    requires i < SUBJECTS
    ensures var s := p[i];
            Decide(p, Admin, Request(GRANT, i, 42, 1, 0)) ==
              if s.state == QUARANTINED then (p, Result(ISOLATED, 0))
              else if s.generation == U64_MAX then (p, Result(EXHAUSTED, 0))
              else (p[i := Subject(s.generation + 1, 42, 1, ACTIVE)], Result(OK, s.generation + 1))
  {
  }

  // Any other grant is refused.
  lemma GrantRefused(p: Policy, r: Request)
    requires r.op == GRANT && r.subject < SUBJECTS && (r.obj != 42 || r.rights != 1 || r.generation != 0)
    ensures Decide(p, Admin, r) ==
              (p, Result(if p[r.subject].state == QUARANTINED then ISOLATED
                         else if r.obj == 42 && r.rights == 1 then BAD_MESSAGE else DENIED, 0))
  {
  }

  // Taking authority away always moves the generation on, while it can; only a
  // restoration ends a quarantine.
  lemma ReductionOutcome(p: Policy, i: u64, op: u64)
    requires i < SUBJECTS && (op == REVOKE || op == QUARANTINE || op == RESTORE)
    ensures var s := p[i];
            var generation := if s.generation < U64_MAX then s.generation + 1 else U64_MAX;
            var state := if op == QUARANTINE || (op == REVOKE && s.state == QUARANTINED) then QUARANTINED else RESTRICTED;
            Decide(p, Admin, Request(op, i, 0, 0, 0)) ==
              if op == RESTORE && s.state != QUARANTINED then (p, Result(DENIED, 0))
              else (p[i := Subject(generation, 0, 0, state)], Result(OK, generation))
  {
  }

  lemma ReductionMalformed(p: Policy, r: Request)
    requires r.subject < SUBJECTS && (r.op == REVOKE || r.op == QUARANTINE || r.op == RESTORE)
    requires r.obj != 0 || r.rights != 0 || r.generation != 0
    ensures Decide(p, Admin, r) == (p, Result(BAD_MESSAGE, 0))
  {
  }

  // A check changes nothing; it says why it fails.
  lemma CheckOutcome(p: Policy, r: Request)
    requires r.op == CHECK && r.subject < SUBJECTS && SnapshotValid(SnapshotOf(p[r.subject]))
    ensures var s := p[r.subject];
            Decide(p, Storage, r) ==
              (p, if s.state == QUARANTINED then Result(ISOLATED, 0)
                  else if r.obj != 42 || r.rights != 1 || s.state != ACTIVE then Result(DENIED, 0)
                  else if r.generation != s.generation then Result(STALE, 0)
                  else Result(OK, s.generation))
  {
    assert p[r.subject := p[r.subject]] == p;
  }

  // Who may ask, and for what.
  lemma CallerOutcome(p: Policy, actor: Actor, r: Request)
    ensures r.subject >= SUBJECTS || r.op == 0 || r.op > RESTORE ==> Decide(p, actor, r) == (p, Result(BAD_MESSAGE, 0))
    ensures r.subject < SUBJECTS && 0 < r.op <= RESTORE && (if r.op == CHECK then actor != Storage else actor != Admin) ==>
              Decide(p, actor, r) == (p, Result(DENIED, 0))
  {
  }

  function CheckOf(subject: u64, generation: u64): Request { Request(CHECK, subject, 42, 1, generation) }

  // The number a grant answers with is the one a check must present.
  lemma GrantUsable(p: Policy, actor: Actor, r: Request)
    requires r.op == GRANT && Decide(p, actor, r).1.status == OK
    ensures var (next, d) := Decide(p, actor, r);
            && Verdict(next, Storage, CheckOf(r.subject, d.value)) == OK
            && Decide(next, Storage, CheckOf(r.subject, d.value)) == (next, d)
            && Session(next, r.subject, d.value)
  {
    var next := Decide(p, actor, r).0;
    assert next[r.subject := next[r.subject]] == next;
  }

  // A conditional command is the plain one, for a caller who knows the generation.
  lemma CompareOutcome(p: Policy, actor: Actor, c: Command)
    ensures var r := c.request;
            var formed := c.sequence != 0 && r.subject < SUBJECTS && 0 < r.op <= RESTORE && r.op != CHECK;
            CompareDecide(p, actor, c) ==
              if actor == Admin && formed && p[r.subject].generation == c.expected then Decide(p, Admin, r)
              else (p, Result(if actor != Admin then DENIED else if !formed then BAD_MESSAGE else STALE, 0))
  {
  }

  ghost predicate Executable(c: Command, p: Policy, expected: u64) {
    CompareDecide(p, Admin, c.(expected := expected)).1.status == OK
  }

  // The commands the administrator admits are those some policy would carry out.
  lemma ExecutionExact(c: Command)
    ensures ExecutionValid(c) <==> exists p: Policy, expected: u64 :: Executable(c, p, expected)
  {
    if ExecutionValid(c) {
      var r := c.request;
      var p: Policy := INITIAL[r.subject := Subject(0, 0, 0, if r.op == RESTORE then QUARANTINED else RESTRICTED)];
      assert Executable(c, p, 0);
    }
  }

  // Storage is told the client's authority as it is; nobody else is.
  lemma StatusOutcome(p: Policy, actor: Actor)
    requires Presentable(p)
    ensures SelfStatus(p, actor) ==
              if actor == Storage then Snapshot(OK, p[1].state, p[1].generation, p[1].obj, p[1].rights)
              else Snapshot(DENIED, 0, 0, 0, 0)
  {
    assert SnapshotValid(SnapshotOf(p[1]));
  }

  // ---------- the audit server ----------

  datatype AuditAsk = AuditAsk(ch: u64, m: Message)

  function LogAt(asks: seq<AuditAsk>, n: nat): Log
    requires n <= |asks|
  {
    if n == 0 then [] else Audited(LogAt(asks, n - 1), asks[n - 1].ch, asks[n - 1].m).0
  }

  // The records the policy owner has sent, whether or not there was room.
  function Sent(asks: seq<AuditAsk>, n: nat): seq<Record>
    requires n <= |asks|
  {
    if n == 0 then []
    else
      var m := asks[n - 1].m;
      Sent(asks, n - 1) + if asks[n - 1].ch == 0 && m.tag == AUDIT_APPEND && |m.words| == FIELDS then [m.words] else []
  }

  function Kept(records: seq<Record>): Log { if |records| <= CAPACITY then records else records[..CAPACITY] }

  // The log is the first sixty-four records sent, in order.
  lemma {:induction false} LogExact(asks: seq<AuditAsk>, n: nat)
    requires n <= |asks|
    ensures LogAt(asks, n) == Kept(Sent(asks, n))
  {
    if n > 0 { LogExact(asks, n - 1); }
  }

  // Each answer is about the records sent so far: the number a record was given,
  // how many there are, or the record of that number.
  lemma AuditAnswers(asks: seq<AuditAsk>, n: nat, index: u64)
    requires n < |asks|
    ensures var (log, sent) := (LogAt(asks, n), Sent(asks, n));
            var reply, stored := Audited(log, asks[n].ch, asks[n].m).1, if |sent| < 64 then |sent| else 64;
            && (asks[n] == AuditAsk(1, Message(AUDIT_COUNT, [])) ==> reply == Message(TCS_REPLY, [0, stored]))
            && (asks[n] == AuditAsk(1, Message(AUDIT_GET, [index])) ==>
                  reply == if index < stored then Message(AUDIT_GET, [index + 1] + sent[index])
                           else Message(TCS_REPLY, [DENIED, 0]))
            && (|Sent(asks, n + 1)| == |sent| + 1 ==>
                  reply == if |sent| < 64 then Message(TCS_REPLY, [0, |sent| + 1]) else Message(TCS_REPLY, [AUDIT_FULL, 0]))
  {
    LogExact(asks, n);
  }

  // Every other message is refused and changes nothing.
  lemma AuditRefusal(log: Log, ch: u64, m: Message)
    requires ch == 0 ==> m.tag != AUDIT_APPEND || |m.words| != FIELDS
    requires ch == 1 ==> (m.tag != AUDIT_COUNT || m.words != []) && (m.tag != AUDIT_GET || |m.words| != 1)
    ensures Audited(log, ch, m) == (log, Message(TCS_REPLY, [if ch == 0 then BAD_MESSAGE else DENIED, 0]))
  {
  }

  // ---------- the policy server ----------

  // With room in the log a request is decided, recorded and answered; without it
  // every request is told so, and only taking authority away still has its effect.
  lemma ServedOutcome(site: Site, ch: u64, m: Message)
    requires ch <= 1 && |m.words| == 4 && LABEL + GRANT <= m.tag <= LABEL + RESTORE
    ensures var r := Request(m.tag - LABEL, m.words[0], m.words[1], m.words[2], m.words[3]);
            var (decided, d) := Decide(site.live, if ch == 0 then Admin else Storage, r);
            var (next, reply) := Served(site, ch, m);
            if |site.log| < CAPACITY then
              && reply == TcsReply(d) && next.live == decided
              && next.log == site.log + [[r.op, ch + 1, r.subject, r.obj, r.rights, r.generation, d.status]]
            else
              && reply == TcsReply(Result(AUDIT_FULL, 0)) && next.log == site.log
              && next.live == if r.op == REVOKE || r.op == QUARANTINE then decided else site.live
  {
    hide Verdict, Changed;
  }

  // Every other message leaves the site as it is: the status goes to storage alone,
  // and the rest is refused.
  lemma OtherOutcome(site: Site, ch: u64, m: Message)
    requires ch > 1 || |m.words| != 4 || m.tag < LABEL + GRANT || m.tag > LABEL + RESTORE
    ensures var status := m.tag == 0x106 && |m.words| == 0;
            Served(site, ch, m) ==
              (site, if ch == 1 && status then SnapshotReply(SelfStatus(site.live, Storage))
                     else if ch > 1 || (ch == 0 && m.tag == 0x106) then Message(TCS_REPLY, [DENIED, 0])
                     else Message(TCS_REPLY, [BAD_MESSAGE, 0]))
  {
  }

  lemma InitialPresentable()
    ensures Presentable(INITIAL)
  {
  }

  lemma ServedPresentable(site: Site, ask: Ask)
    requires Presentable(site.live)
    ensures Presentable(Served(site, ask.ch, ask.m).0.live)
  {
    hide Presentable, Decide;
    if ask.ch <= 1 && IsRequest(ask.m) {
      ServedRequest(site, ask);
      DonePresentable(site.live, Plain(ActorOf(ask.ch), RequestOf(ask.m), true));
    }
  }

  lemma {:induction false} SitePresentable(asks: seq<Ask>, n: nat)
    requires n <= |asks|
    ensures Presentable(SiteAt(asks, n).live)
  {
    hide Served, Presentable;
    if n == 0 {
      assert Presentable(INITIAL) by { InitialPresentable(); }
    } else {
      SitePresentable(asks, n - 1);
      ServedPresentable(SiteAt(asks, n - 1), asks[n - 1]);
    }
  }

  function CheckMessage(subject: u64, generation: u64): Message {
    Message(LABEL + CHECK, [subject, 42, 1, generation])
  }

  // While the log has room, storage's check of a subject succeeds exactly at the
  // generation of its live authority.
  lemma CheckAnswer(asks: seq<Ask>, n: nat, subject: u64, generation: u64)
    requires n <= |asks| && |SiteAt(asks, n).log| < CAPACITY && subject < SUBJECTS
    ensures var site := SiteAt(asks, n);
            Served(site, 1, CheckMessage(subject, generation)).1 == TcsReply(Result(OK, generation)) <==>
              Session(site.live, subject, generation)
  {
    hide Served, Decide;
    var site := SiteAt(asks, n);
    SitePresentable(asks, n);
    ServedOutcome(site, 1, CheckMessage(subject, generation));
    CheckOutcome(site.live, CheckOf(subject, generation));
  }

  // No administration of the subject is asked for between the two points.
  predicate Quiet(asks: seq<Ask>, m: nat, n: nat, subject: u64)
    requires m <= n <= |asks|
  {
    forall k | m <= k < n :: asks[k].ch != 0 || |asks[k].m.words| == 0 || asks[k].m.words[0] != subject
  }

  lemma StorageOnlyChecks(p: Policy, r: Request)
    ensures Decide(p, Storage, r).0 == p
  {
  }

  lemma SessionKept(site: Site, ask: Ask, subject: u64, generation: u64)
    requires subject < SUBJECTS && Session(site.live, subject, generation)
    requires ask.ch != 0 || |ask.m.words| == 0 || ask.m.words[0] != subject
    ensures Session(Served(site, ask.ch, ask.m).0.live, subject, generation)
  {
    hide Decide;
    if ask.ch <= 1 && IsRequest(ask.m) {
      ServedRequest(site, ask);
      var actor, r := ActorOf(ask.ch), RequestOf(ask.m);
      DecisionOutcome(site.live, actor, r);
      StorageOnlyChecks(site.live, r);
    }
  }

  lemma {:induction false} SessionLasts(asks: seq<Ask>, m: nat, n: nat, subject: u64, generation: u64)
    requires m <= n <= |asks| && subject < SUBJECTS && Quiet(asks, m, n, subject)
    requires Session(SiteAt(asks, m).live, subject, generation)
    ensures Session(SiteAt(asks, n).live, subject, generation)
    decreases n
  {
    hide Served, Session;
    if m < n {
      SessionLasts(asks, m, n - 1, subject, generation);
      SessionKept(SiteAt(asks, n - 1), asks[n - 1], subject, generation);
    }
  }

  lemma SiteNext(asks: seq<Ask>, n: nat)
    requires n < |asks|
    ensures SiteAt(asks, n + 1) == Served(SiteAt(asks, n), asks[n].ch, asks[n].m).0
  {
  }

  lemma GrantAnswered(site: Site, ask: Ask, generation: u64)
    requires ask.ch <= 1 && IsRequest(ask.m) && ask.m.tag == LABEL + GRANT
    requires Served(site, ask.ch, ask.m).1 == TcsReply(Result(OK, generation))
    ensures ask.m.words[0] < SUBJECTS && Session(Served(site, ask.ch, ask.m).0.live, ask.m.words[0], generation)
  {
    hide Served, Decide;
    ServedOutcome(site, ask.ch, ask.m);
    if Decide(site.live, ActorOf(ask.ch), RequestOf(ask.m)).1.status == OK {
      GrantUsable(site.live, ActorOf(ask.ch), RequestOf(ask.m));
    }
  }

  // The number a recorded grant is answered with is accepted by every check of
  // that subject until it is administered again, while the log has room.
  lemma GrantHonoured(asks: seq<Ask>, m: nat, n: nat, subject: u64, generation: u64)
    requires m < n <= |asks| && subject < SUBJECTS && |SiteAt(asks, n).log| < CAPACITY
    requires asks[m].ch <= 1 && IsRequest(asks[m].m) && asks[m].m.tag == LABEL + GRANT && asks[m].m.words[0] == subject
    requires Served(SiteAt(asks, m), asks[m].ch, asks[m].m).1 == TcsReply(Result(OK, generation))
    requires Quiet(asks, m + 1, n, subject)
    ensures Served(SiteAt(asks, n), 1, CheckMessage(subject, generation)).1 == TcsReply(Result(OK, generation))
  {
    hide SiteAt, Decide, Quiet, Session;
    var site := SiteAt(asks, m);
    GrantAnswered(site, asks[m], generation);
    assert SiteAt(asks, m + 1) == Served(site, asks[m].ch, asks[m].m).0 by { SiteNext(asks, m); }
    SessionLasts(asks, m + 1, n, subject, generation);
    CheckAnswer(asks, n, subject, generation);
  }

}

// servers/policy.c: apply on a candidate, ask the audit server to record the
// decision, then commit; and what the audit log says about the live policy.

module PolicyServer {
  import opened Words
  import opened Messages
  import opened Policy
  import opened AuditServer

  const LABEL: u64 := 0x100
  const SELF_STATUS: u64 := 0x106
  const SNAPSHOT_REPLY: u64 := 0x182

  function SnapshotReply(s: Snapshot): Message {
    if s.status != OK then TcsReply(Result(s.status, 0))
    else if !SnapshotValid(s) then TcsReply(Result(BAD_MESSAGE, 0))
    else Message(SNAPSHOT_REPLY, [s.state, s.generation, s.obj, s.rights])
  }

  function ActorWord(actor: Actor): u64 { match actor case Unknown => 0 case Admin => 1 case Storage => 2 }

  function RecordOf(actor: Actor, r: Request, status: u64): Record {
    [r.op, ActorWord(actor), r.subject, r.obj, r.rights, r.generation, status]
  }

  // A four-word message labelled with one of the five operations.
  predicate IsRequest(m: Message) { |m.words| == 4 && LABEL + GRANT <= m.tag <= LABEL + RESTORE }

  function RequestOf(m: Message): Request
    requires IsRequest(m)
  {
    Request(m.tag - LABEL, m.words[0], m.words[1], m.words[2], m.words[3])
  }

  // The kernel-assigned channel is the caller's identity.
  function ActorOf(ch: u64): Actor { if ch == 0 then Admin else Storage }

  datatype Site = Site(live: Policy, log: Log)

  function Served(site: Site, ch: u64, m: Message): (Site, Message) {
    if ch > 1 then (site, TcsReply(Result(DENIED, 0)))
    else if m.tag == SELF_STATUS then
      (site, if ch != 1 then TcsReply(Result(DENIED, 0))
             else if |m.words| != 0 then TcsReply(Result(BAD_MESSAGE, 0))
             else SnapshotReply(SelfStatus(site.live, Storage)))
    else if !IsRequest(m) then (site, TcsReply(Result(BAD_MESSAGE, 0)))
    else
      var (candidate, decision) := Decide(site.live, ActorOf(ch), RequestOf(m));
      var (log, logged) := Audited(site.log, 0, Message(AUDIT_APPEND, RecordOf(ActorOf(ch), RequestOf(m), decision.status)));
      var (live, committed) := Commit(site.live, candidate, RequestOf(m), decision, TcsResponse(logged).status == OK);
      (Site(live, log), TcsReply(committed))
  }

  // ---------- replaying the log ----------

  datatype Ask = Ask(ch: u64, m: Message)

  const OPENING := Site(INITIAL, [])

  function SiteAt(asks: seq<Ask>, n: nat): Site
    requires n <= |asks|
  {
    if n == 0 then OPENING else Served(SiteAt(asks, n - 1), asks[n - 1].ch, asks[n - 1].m).0
  }

  function Recorded(record: Record): Request { Request(record[0], record[2], record[3], record[4], record[5]) }

  function RecordedActor(record: Record): Actor {
    if record[1] == 1 then Admin else if record[1] == 2 then Storage else Unknown
  }

  function Rerun(p: Policy, record: Record): (Policy, Result) { Decide(p, RecordedActor(record), Recorded(record)) }

  // The policy after replaying the first k records from the initial policy.
  function Replay(log: seq<Record>, k: nat): Policy
    requires k <= |log|
  {
    if k == 0 then INITIAL else Rerun(Replay(log, k - 1), log[k - 1]).0
  }

  // Every replayed decision is the recorded one.
  ghost predicate Reproduces(log: seq<Record>) {
    forall k | 0 <= k < |log| :: Rerun(Replay(log, k), log[k]).1.status == log[k][6]
  }

  function Slips(site: Site, ask: Ask): seq<Request> {
    if ask.ch <= 1 && IsRequest(ask.m) && |site.log| == CAPACITY && IsReduction(RequestOf(ask.m).op)
       && Verdict(site.live, ActorOf(ask.ch), RequestOf(ask.m)) == OK then [RequestOf(ask.m)]
    else []
  }

  // The reductions that took effect without a record because the log was full.
  function Unrecorded(asks: seq<Ask>, n: nat): seq<Request>
    requires n <= |asks|
  {
    if n == 0 then []
    else Unrecorded(asks, n - 1) + Slips(SiteAt(asks, n - 1), asks[n - 1])
  }

  function Reduced(p: Policy, rs: seq<Request>): Policy
    decreases |rs|
  {
    if rs == [] then p else Decide(Reduced(p, rs[..|rs| - 1]), Admin, rs[|rs| - 1]).0
  }

  // A policy request, of any kind, that was answered with success.
  predicate Succeeds(site: Site, ask: Ask) {
    ask.ch <= 1 && IsRequest(ask.m) && TcsResponse(Served(site, ask.ch, ask.m).1).status == OK
  }

  function Successes(asks: seq<Ask>, n: nat): nat
    requires n <= |asks|
  {
    if n == 0 then 0 else Successes(asks, n - 1) + if Succeeds(SiteAt(asks, n - 1), asks[n - 1]) then 1 else 0
  }

  ghost predicate Accounted(site: Site, late: seq<Request>) {
    && Reproduces(site.log)
    && site.live == Reduced(Replay(site.log, |site.log|), late)
    && (|site.log| < CAPACITY ==> late == [])
    && (forall r | r in late :: IsReduction(r.op))
  }

  lemma {:induction false} ReplayOfPrefix(log: seq<Record>, record: Record, k: nat)
    requires k <= |log|
    ensures Replay(log + [record], k) == Replay(log, k)
  {
    if k > 0 { ReplayOfPrefix(log, record, k - 1); }
  }

  lemma {:induction false} AppendReproduces(log: seq<Record>, record: Record)
    requires Reproduces(log) && Rerun(Replay(log, |log|), record).1.status == record[6]
    ensures Reproduces(log + [record])
    ensures Replay(log + [record], |log| + 1) == Rerun(Replay(log, |log|), record).0
  {
    hide Rerun;
    forall k | 0 <= k <= |log| ensures Replay(log + [record], k) == Replay(log, k) {
      ReplayOfPrefix(log, record, k);
    }
  }

  // What one request does to the log and the live policy.
  lemma ServedRequest(site: Site, ask: Ask)
    requires ask.ch <= 1 && IsRequest(ask.m)
    ensures var r, actor := RequestOf(ask.m), ActorOf(ask.ch);
            var (candidate, decision) := Decide(site.live, actor, r);
            var next, full := Served(site, ask.ch, ask.m).0, |site.log| == CAPACITY;
            && next.log == (if full then site.log else site.log + [RecordOf(actor, r, decision.status)])
            && next.live == (if full && !IsReduction(r.op) then site.live else candidate)
            && (Succeeds(site, ask) <==> !full && decision.status == OK)
  {
  }

  lemma RecordAccounted(site: Site, ask: Ask)
    requires Accounted(site, []) && ask.ch <= 1 && IsRequest(ask.m) && |site.log| < CAPACITY
    ensures Accounted(Served(site, ask.ch, ask.m).0, [])
  {
    hide Served, Decide, Succeeds;
    var r, actor := RequestOf(ask.m), ActorOf(ask.ch);
    ServedRequest(site, ask);
    AppendReproduces(site.log, RecordOf(actor, r, Decide(site.live, actor, r).1.status));
  }

  lemma SlipAccounted(site: Site, ask: Ask, late: seq<Request>)
    requires Accounted(site, late) && ask.ch <= 1 && IsRequest(ask.m) && |site.log| == CAPACITY
    ensures Accounted(Served(site, ask.ch, ask.m).0, late + Slips(site, ask))
  {
    hide Served, Succeeds, Reproduces;
    var r := RequestOf(ask.m);
    ServedRequest(site, ask);
    assert (late + [r])[..|late|] == late && late + [] == late;
  }

  lemma ServedAccounted(site: Site, ask: Ask, late: seq<Request>)
    requires Accounted(site, late)
    ensures Accounted(Served(site, ask.ch, ask.m).0, late + Slips(site, ask))
    ensures |Served(site, ask.ch, ask.m).0.log| >= |site.log| + if Succeeds(site, ask) then 1 else 0
  {
    assert late + [] == late;
    if ask.ch <= 1 && IsRequest(ask.m) {
      ServedRequest(site, ask);
      if |site.log| < CAPACITY { RecordAccounted(site, ask); } else { SlipAccounted(site, ask, late); }
    }
  }

  // Replaying the log reproduces every recorded decision; the live policy is that
  // replay followed only by reductions; and the bounded log bounds the successes.
  lemma {:induction false} AuditReplay(asks: seq<Ask>, n: nat)
    requires n <= |asks|
    ensures Accounted(SiteAt(asks, n), Unrecorded(asks, n))
    ensures Successes(asks, n) <= |SiteAt(asks, n).log| <= CAPACITY
  {
    hide Served, Slips, Succeeds;
    if n > 0 {
      AuditReplay(asks, n - 1);
      ServedAccounted(SiteAt(asks, n - 1), asks[n - 1], Unrecorded(asks, n - 1));
    }
  }

  lemma {:induction false} ReductionsOnlyReduce(p: Policy, rs: seq<Request>, i: nat)
    requires i < SUBJECTS && forall r | r in rs :: IsReduction(r.op)
    requires Reduced(p, rs)[i].state == ACTIVE
    ensures Reduced(p, rs)[i] == p[i]
    decreases |rs|
  {
    if rs != [] { ReductionsOnlyReduce(p, rs[..|rs| - 1], i); }
  }

  // Authority that is live is in the replay, at the same generation.
  lemma LiveAuthorityRecorded(asks: seq<Ask>, n: nat, i: nat)
    requires n <= |asks| && i < SUBJECTS && SiteAt(asks, n).live[i].state == ACTIVE
    ensures var site := SiteAt(asks, n);
            Replay(site.log, |site.log|)[i] == site.live[i]
  {
    AuditReplay(asks, n);
    var site := SiteAt(asks, n);
    ReductionsOnlyReduce(Replay(site.log, |site.log|), Unrecorded(asks, n), i);
  }

  // ---------- the C code ----------

  class Server {
    const audit: Auditor
    const live: PolicyOwner
    var ready: bool

    constructor (audit: Auditor)
      ensures this.audit == audit && fresh(live) && live.policy == INITIAL && !ready
    {
      this.audit := audit;
      live := new PolicyOwner(INITIAL);
      ready := false;
    }

    method Init()
      modifies this
      ensures ready
    {
      ready := true;
    }

    method Protected(ch: u64, m: Message) returns (reply: Message)
      requires audit.Shape()
      modifies live, audit, audit.records
      ensures audit.Shape()
      ensures !old(ready) ==> reply == TcsReply(Result(DENIED, 0)) && live.policy == old(live.policy)
                              && audit.Contents() == old(audit.Contents())
      ensures old(ready) ==> (Site(live.policy, audit.Contents()), reply)
                             == Served(Site(old(live.policy), old(audit.Contents())), ch, m)
    {
      hide Decide, Commit, Audited, SelfStatus, SnapshotReply;
      var tag := m.tag;
      if !ready || (ch != 0 && ch != 1) { return TcsReply(Result(DENIED, 0)); }
      if tag == SELF_STATUS {
        if ch != 1 { return TcsReply(Result(DENIED, 0)); }
        if |m.words| != 0 { return TcsReply(Result(BAD_MESSAGE, 0)); }
        return SnapshotReply(SelfStatus(live.policy, Storage));
      }
      if |m.words| != 4 || tag < LABEL + GRANT || tag > LABEL + RESTORE { return TcsReply(Result(BAD_MESSAGE, 0)); }
      var r := Request(tag % 0x100, m.words[0], m.words[1], m.words[2], m.words[3]);
      var actor := if ch == 0 then Admin else Storage;
      var candidate := new PolicyOwner(live.policy);
      var decision := candidate.Apply(actor, r);
      var answer := audit.Protected(0, Message(AUDIT_APPEND,
        [r.op, ActorWord(actor), r.subject, r.obj, r.rights, r.generation, decision.status]));
      var logged := TcsResponse(answer);
      var committed := live.CommitFrom(candidate.policy, r, decision, logged.status == OK);
      return TcsReply(committed);
    }
  }
}

// lib/policy.c and lib/admin_policy.c: per-subject authority with a generation
// counter that saturates, decided on a candidate copy and committed afterwards.

module Policy {
  import opened Words

  const SUBJECTS := 4
  const CLIENT_SUBJECT := 1
  const OBJECT: u64 := 42
  const READ: u64 := 1

  const RESTRICTED: u64 := 0
  const ACTIVE: u64 := 1
  const QUARANTINED: u64 := 2

  const GRANT: u64 := 1
  const CHECK: u64 := 2
  const REVOKE: u64 := 3
  const QUARANTINE: u64 := 4
  const RESTORE: u64 := 5

  const OK: u64 := 0
  const DENIED: u64 := 1
  const BAD_MESSAGE: u64 := 2
  const STALE: u64 := 3
  const ISOLATED: u64 := 4
  const AUDIT_FULL: u64 := 5
  const EXHAUSTED: u64 := 6

  datatype Actor = Unknown | Admin | Storage

  datatype Subject = Subject(generation: u64, obj: u64, rights: u64, state: u64)

  type Policy = p: seq<Subject> | |p| == SUBJECTS witness seq(SUBJECTS, _ => Subject(0, 0, 0, 0))

  const INITIAL: Policy := [Subject(0, 0, 0, RESTRICTED), Subject(0, 0, 0, RESTRICTED),
                            Subject(0, 0, 0, RESTRICTED), Subject(0, 0, 0, RESTRICTED)]

  datatype Request = Request(op: u64, subject: u64, obj: u64, rights: u64, generation: u64)

  datatype Result = Result(status: u64, value: u64)

  datatype Snapshot = Snapshot(status: u64, state: u64, generation: u64, obj: u64, rights: u64)

  predicate SnapshotValid(s: Snapshot) {
    && s.status == OK && s.state <= QUARANTINED
    && (if s.state == ACTIVE then s.generation != 0 && s.obj == OBJECT && s.rights == READ
        else s.obj == 0 && s.rights == 0)
  }

  function SnapshotOf(s: Subject): Snapshot { Snapshot(OK, s.state, s.generation, s.obj, s.rights) }

  // The client subject's own status, for storage only.
  function SelfStatus(p: Policy, actor: Actor): Snapshot {
    var s := SnapshotOf(p[CLIENT_SUBJECT]);
    if actor != Storage then Snapshot(DENIED, 0, 0, 0, 0)
    else if !SnapshotValid(s) then Snapshot(BAD_MESSAGE, 0, 0, 0, 0)
    else s
  }

  predicate IsReduction(op: u64) { op == REVOKE || op == QUARANTINE }

  // ---------- decision and effect ----------

  function SubjectVerdict(s: Subject, r: Request): u64 {
    if r.op == GRANT || r.op == CHECK then
      if s.state == QUARANTINED then ISOLATED
      else if r.obj != OBJECT || r.rights != READ then DENIED
      else if r.op == GRANT then
        if r.generation != 0 then BAD_MESSAGE else if s.generation == U64_MAX then EXHAUSTED else OK
      else if s.state != ACTIVE || s.rights != READ then DENIED
      else if r.generation == 0 || r.generation != s.generation then STALE
      else if s.obj != OBJECT then DENIED
      else OK
    else if r.obj != 0 || r.rights != 0 || r.generation != 0 then BAD_MESSAGE
    else if r.op == RESTORE && s.state != QUARANTINED then DENIED
    else OK
  }

  function Verdict(p: Policy, actor: Actor, r: Request): u64 {
    if r.subject >= SUBJECTS || r.op < GRANT || r.op > RESTORE then BAD_MESSAGE
    else if actor != (if r.op == CHECK then Storage else Admin) then DENIED
    else SubjectVerdict(p[r.subject], r)
  }

  // Generations saturate instead of wrapping.
  function Later(generation: u64): u64 { if generation == U64_MAX then generation else generation + 1 }

  function Changed(s: Subject, op: u64): Subject {
    if op == CHECK then s
    else if op == GRANT then Subject(Later(s.generation), OBJECT, READ, ACTIVE)
    else if op == QUARANTINE || (op == REVOKE && s.state == QUARANTINED) then Subject(Later(s.generation), 0, 0, QUARANTINED)
    else Subject(Later(s.generation), 0, 0, RESTRICTED)
  }

  // The candidate policy and the decision about it.
  function Decide(p: Policy, actor: Actor, r: Request): (Policy, Result) {
    var status := Verdict(p, actor, r);
    if status != OK then (p, Result(status, 0))
    else
      var s := Changed(p[r.subject], r.op);
      (p[r.subject := s], Result(OK, s.generation))
  }

  // An audit failure blocks what gives authority but not what takes it away.
  function Commit(live: Policy, candidate: Policy, r: Request, decision: Result, auditOk: bool): (Policy, Result) {
    (if decision.status == OK && (auditOk || IsReduction(r.op)) then candidate else live,
     if auditOk then decision else Result(AUDIT_FULL, 0))
  }

  // ---------- conditional administration ----------

  datatype Command = Command(sequence: u64, expected: u64, request: Request)

  function CompareDecide(p: Policy, actor: Actor, c: Command): (Policy, Result) {
    if actor != Admin then (p, Result(DENIED, 0))
    else if c.sequence == 0 || c.request.subject >= SUBJECTS || c.request.op < GRANT || c.request.op > RESTORE
            || c.request.op == CHECK then (p, Result(BAD_MESSAGE, 0))
    else if p[c.request.subject].generation != c.expected then (p, Result(STALE, 0))
    else Decide(p, actor, c.request)
  }

  // ---------- runs ----------

  datatype Deed = Plain(actor: Actor, request: Request, audit: bool) | Conditional(command: Command, audit: bool)

  function Done(p: Policy, d: Deed): Policy {
    match d
    case Plain(actor, r, audit) => var (candidate, decision) := Decide(p, actor, r);
      Commit(p, candidate, r, decision, audit).0
    case Conditional(c, audit) => var (candidate, decision) := CompareDecide(p, Admin, c);
      Commit(p, candidate, c.request, decision, audit).0
  }

  function Live(p: Policy, deeds: seq<Deed>, n: nat): Policy
    requires n <= |deeds|
  {
    if n == 0 then p else Done(Live(p, deeds, n - 1), deeds[n - 1])
  }

  // A session is a subject's active authority at one generation.
  predicate Session(p: Policy, subject: u64, g: u64)
    requires subject < SUBJECTS
  {
    p[subject].state == ACTIVE && p[subject].generation == g
  }

  // No way back: the generation has moved on, or it is stuck at its maximum with
  // the authority gone, and a grant would need the next one.
  predicate Gone(s: Subject, g: u64) { g < s.generation || (s.generation == g == U64_MAX && s.state != ACTIVE) }

  lemma GoneStays(p: Policy, d: Deed, subject: u64, g: u64)
    requires subject < SUBJECTS && Gone(p[subject], g)
    ensures Gone(Done(p, d)[subject], g)
  {
  }

  lemma LeavingIsGone(p: Policy, d: Deed, subject: u64, g: u64)
    requires subject < SUBJECTS && Session(p, subject, g) && !Session(Done(p, d), subject, g)
    ensures Gone(Done(p, d)[subject], g)
  {
  }

  lemma {:induction false} GoneForGood(p: Policy, deeds: seq<Deed>, m: nat, n: nat, subject: u64, g: u64)
    requires m <= n <= |deeds| && subject < SUBJECTS && Gone(Live(p, deeds, m)[subject], g)
    ensures Gone(Live(p, deeds, n)[subject], g)
    decreases n
  {
    hide Done, Gone;
    if m < n {
      GoneForGood(p, deeds, m, n - 1, subject, g);
      GoneStays(Live(p, deeds, n - 1), deeds[n - 1], subject, g);
    }
  }

  // Leaving is decided at one step between the two observations.
  lemma {:induction false} LeftSomewhere(p: Policy, deeds: seq<Deed>, m: nat, k: nat, subject: u64, g: u64)
    requires m <= k <= |deeds| && subject < SUBJECTS
    requires Session(Live(p, deeds, m), subject, g) && !Session(Live(p, deeds, k), subject, g)
    ensures Gone(Live(p, deeds, k)[subject], g)
    decreases k
  {
    hide Done, Gone;
    if Session(Live(p, deeds, k - 1), subject, g) {
      LeavingIsGone(Live(p, deeds, k - 1), deeds[k - 1], subject, g);
    } else {
      LeftSomewhere(p, deeds, m, k - 1, subject, g);
      GoneStays(Live(p, deeds, k - 1), deeds[k - 1], subject, g);
    }
  }

  // A check succeeds exactly for a well-formed request in the current session
  // of a subject that holds the object.
  lemma CheckExact(p: Policy, r: Request)
    requires r.op == CHECK
    ensures Verdict(p, Storage, r) == OK <==>
              && r.subject < SUBJECTS && r.obj == OBJECT && r.rights == READ && r.generation != 0
              && Session(p, r.subject, r.generation) && p[r.subject].rights == READ && p[r.subject].obj == OBJECT
  {
  }

  // Once a session has ended, no check with its generation ever succeeds again,
  // from any starting policy, whatever the audit does, and even when the
  // generation is stuck at its maximum.
  lemma SessionIrrevocable(p: Policy, deeds: seq<Deed>, m: nat, k: nat, n: nat, r: Request, g: u64)
    requires m <= k <= n <= |deeds| && r.subject < SUBJECTS && r.op == CHECK && r.generation == g
    requires Session(Live(p, deeds, m), r.subject, g) && !Session(Live(p, deeds, k), r.subject, g)
    ensures Verdict(Live(p, deeds, n), Storage, r) != OK
    ensures !Session(Live(p, deeds, n), r.subject, g)
  {
    hide Done, Live, Verdict;
    LeftSomewhere(p, deeds, m, k, r.subject, g);
    GoneForGood(p, deeds, k, n, r.subject, g);
    CheckExact(Live(p, deeds, n), r);
  }

  // Every policy reached from a snapshot-valid one stays snapshot-valid.
  predicate Presentable(p: Policy) { forall i | 0 <= i < SUBJECTS :: SnapshotValid(SnapshotOf(p[i])) }

  lemma DonePresentable(p: Policy, d: Deed)
    requires Presentable(p)
    ensures Presentable(Done(p, d))
  {
  }

  // ---------- the C code ----------

  class PolicyOwner {
    var policy: Policy

    constructor (initial: Policy)
      ensures policy == initial
    {
      policy := initial;
    }

    method Apply(actor: Actor, r: Request) returns (result: Result)
      modifies this
      ensures (policy, result) == Decide(old(policy), actor, r)
    {
      if r.subject >= SUBJECTS || r.op < GRANT || r.op > RESTORE { return Result(BAD_MESSAGE, 0); }
      if (r.op == CHECK && actor != Storage) || (r.op != CHECK && actor != Admin) { return Result(DENIED, 0); }
      var s := policy[r.subject];
      if r.op == REVOKE || r.op == QUARANTINE || r.op == RESTORE {
        if r.obj != 0 || r.rights != 0 || r.generation != 0 { return Result(BAD_MESSAGE, 0); }
        if r.op == RESTORE && s.state != QUARANTINED { return Result(DENIED, 0); }
        s := s.(rights := 0, obj := 0);
        if s.generation != U64_MAX { s := s.(generation := s.generation + 1); }
        if r.op == QUARANTINE {
          s := s.(state := QUARANTINED);
        } else if r.op == RESTORE || s.state != QUARANTINED {
          s := s.(state := RESTRICTED);
        }
        policy := policy[r.subject := s];
        return Result(OK, s.generation);
      }
      if s.state == QUARANTINED { return Result(ISOLATED, 0); }
      if r.obj != OBJECT || r.rights != READ { return Result(DENIED, 0); }
      if r.op == GRANT {
        if r.generation != 0 { return Result(BAD_MESSAGE, 0); }
        if s.generation == U64_MAX { return Result(EXHAUSTED, 0); }
        s := s.(generation := s.generation + 1);
        s := s.(rights := r.rights, obj := r.obj, state := ACTIVE);
        policy := policy[r.subject := s];
        return Result(OK, s.generation);
      }
      assert policy[r.subject := s] == policy;
      if s.state != ACTIVE || s.rights != READ { return Result(DENIED, 0); }
      if r.generation == 0 || r.generation != s.generation { return Result(STALE, 0); }
      if s.obj != r.obj { return Result(DENIED, 0); }
      return Result(OK, s.generation);
    }

    method CompareApply(actor: Actor, c: Command) returns (result: Result)
      modifies this
      ensures (policy, result) == CompareDecide(old(policy), actor, c)
    {
      if actor != Admin { return Result(DENIED, 0); }
      if c.sequence == 0 || c.request.subject >= SUBJECTS || c.request.op < GRANT || c.request.op > RESTORE
        || c.request.op == CHECK
      {
        return Result(BAD_MESSAGE, 0);
      }
      if policy[c.request.subject].generation != c.expected { return Result(STALE, 0); }
      result := Apply(actor, c.request);
    }

    method CommitFrom(candidate: Policy, r: Request, decision: Result, auditOk: bool) returns (result: Result)
      modifies this
      ensures (policy, result) == Commit(old(policy), candidate, r, decision, auditOk)
    {
      var reduction := r.op == REVOKE || r.op == QUARANTINE;
      if decision.status == OK && (auditOk || reduction) { policy := candidate; }
      if !auditOk { return Result(AUDIT_FULL, 0); }
      return decision;
    }
  }
}

// lib/lifecycle.c: the one-use, two-slot worker state machine.
//
// `Step` is the transition table of the state machine on values; the class
// `LifecycleOwner` is the C code, which works on a copy and commits it, and is
// proved to compute `Step`. What the table guarantees over whole runs is in
// LifecycleRuns.dfy.

module Lifecycle {
  import opened Words

  const SLOTS := 2

  // Phases of a slot (enum tcs_lc_state).
  const UNUSED: u64 := 0
  const STARTING: u64 := 1
  const READY: u64 := 2
  const ACTIVE: u64 := 3
  const CLOSING: u64 := 4
  const RETIRED: u64 := 5

  // Operations (enum tcs_lc_op).
  const RESERVE: u64 := 1
  const STARTED: u64 := 2
  const ACTIVATE: u64 := 3
  const BEGIN: u64 := 4
  const COMPLETE: u64 := 5
  const CONTAIN: u64 := 6
  const STOPPED: u64 := 7
  const DRAINED: u64 := 8

  datatype Actor = Unknown | Admin | Supervisor | Broker | Detector | Worker

  datatype Status = Ok | Invalid | Denied | Stale | BadState | AuditRequired | Exhausted

  datatype Result = Result(status: Status, value: u64)

  datatype Event = Event(op: u64, slot: u64, incarnation: u64, sequence: u64)

  datatype Input = Input(actor: Actor, event: Event, audit: bool)

  datatype Slot = Slot(state: u64, incarnation: u64, issued: u64, pending: u64, stopped: u64, drained: u64)
  {
    predicate Live() { STARTING <= state <= ACTIVE }

    predicate Occupied() { state != UNUSED && state != RETIRED }
  }

  datatype LifeRaw = Life(last: u64, slots: seq<Slot>)

  type Life = life: LifeRaw | |life.slots| == SLOTS witness Life(0, [EMPTY, EMPTY])

  const EMPTY := Slot(0, 0, 0, 0, 0, 0)
  const ZERO: Life := Life(0, [EMPTY, EMPTY])

  // ---------- structural validity ----------

  predicate SlotValid(s: Slot, last: u64) {
    && s.state <= RETIRED && s.stopped <= 1 && s.drained <= 1
    && (s.state == UNUSED ==> s == EMPTY)
    && (s.state != UNUSED ==> 0 < s.incarnation <= last)
    && (s.pending == 0 || s.pending == s.issued)
    && (s.state < ACTIVE ==> s.issued == 0)
    && (s.state < CLOSING ==> s.stopped == 0 && s.drained == 0)
    && (s.drained == 1 ==> s.pending == 0)
    && (CLOSING <= s.state ==> (s.state == RETIRED <==> s.stopped == 1 && s.drained == 1))
  }

  predicate Valid(life: Life) {
    && SlotValid(life.slots[0], life.last) && SlotValid(life.slots[1], life.last)
    && (life.slots[0].state != UNUSED && life.slots[1].state != UNUSED ==>
          life.slots[0].incarnation != life.slots[1].incarnation)
    && !(life.slots[0].Occupied() && life.slots[1].Occupied())
  }

  // The work gate of one slot.
  predicate Allows(life: Life, slot: u64, incarnation: u64) {
    && Valid(life) && slot < SLOTS && incarnation != 0
    && life.slots[slot].state == ACTIVE && life.slots[slot].incarnation == incarnation
  }

  // ---------- the transition table ----------

  // What each trusted caller may ask for; unknown callers and workers: nothing.
  predicate Trusted(actor: Actor, op: u64) {
    match actor
    case Admin => op == RESERVE || op == ACTIVATE || op == CONTAIN
    case Supervisor => op == STARTED || op == STOPPED || op == CONTAIN
    case Broker => op == BEGIN || op == COMPLETE || op == DRAINED
    case Detector => op == CONTAIN
    case Unknown => false
    case Worker => false
  }

  predicate InPhase(op: u64, state: u64) {
    if op == RESERVE then state == UNUSED
    else if op == STARTED then state == STARTING
    else if op == ACTIVATE then state == READY
    else if op == BEGIN || op == COMPLETE then state == ACTIVE
    else if op == CONTAIN then STARTING <= state <= ACTIVE
    else state == CLOSING
  }

  // RESERVE names no incarnation, every other event does; only completions and
  // confirmations carry a sequence, and a completion carries a nonzero one.
  predicate Shaped(e: Event) {
    && (e.op == RESERVE <==> e.incarnation == 0)
    && (e.op != COMPLETE && e.op != STOPPED && e.op != DRAINED ==> e.sequence == 0)
    && (e.op == COMPLETE ==> e.sequence != 0)
  }

  // What the slot itself refuses once actor, shape and incarnation are right.
  function Refusal(life: Life, e: Event, audit: bool): Status
    requires e.slot < SLOTS
  {
    var s := life.slots[e.slot];
    if !InPhase(e.op, s.state) then BadState
    else if e.op == RESERVE && (life.slots[0].Occupied() || life.slots[1].Occupied()) then BadState
    else if e.op == BEGIN && s.pending != 0 then BadState
    else if e.op == COMPLETE && e.sequence != s.pending then Stale
    else if (e.op == STOPPED || e.op == DRAINED) && e.sequence != s.issued then Stale
    else if (e.op == STOPPED && s.stopped != 0) || (e.op == DRAINED && s.drained != 0) then BadState
    else if (e.op == RESERVE && life.last == U64_MAX) || (e.op == BEGIN && s.issued == U64_MAX) then Exhausted
    else if (e.op == RESERVE || e.op == ACTIVATE) && !audit then AuditRequired
    else Ok
  }

  function Check(life: Life, x: Input): Status {
    var e := x.event;
    if !Valid(life) || e.slot >= SLOTS || !(RESERVE <= e.op <= DRAINED) then Invalid
    else if !Trusted(x.actor, e.op) then Denied
    else if !Shaped(e) then Invalid
    else if e.op != RESERVE && e.incarnation != life.slots[e.slot].incarnation then Stale
    else Refusal(life, e, x.audit)
  }

  function Confirmed(s: Slot): Slot {
    if s.stopped == 1 && s.drained == 1 then s.(state := RETIRED) else s
  }

  function NextSlot(life: Life, x: Input): Slot
    requires Check(life, x) == Ok
  {
    var s := life.slots[x.event.slot];
    if x.event.op == RESERVE then s.(state := STARTING, incarnation := life.last + 1)
    else if x.event.op == STARTED then s.(state := READY)
    else if x.event.op == ACTIVATE then s.(state := ACTIVE)
    else if x.event.op == BEGIN then s.(issued := s.issued + 1, pending := s.issued + 1)
    else if x.event.op == COMPLETE then s.(pending := 0)
    else if x.event.op == CONTAIN then s.(state := CLOSING)
    else if x.event.op == STOPPED then Confirmed(s.(stopped := 1))
    else Confirmed(s.(drained := 1, pending := 0))
  }

  // BEGIN and COMPLETE report the request sequence, the rest the incarnation.
  function Step(life: Life, x: Input): (Life, Result) {
    var status := Check(life, x);
    if status != Ok then (life, Result(status, 0))
    else
      var s := NextSlot(life, x);
      var value := if x.event.op == BEGIN then s.pending
                   else if x.event.op == COMPLETE then x.event.sequence
                   else s.incarnation;
      (Life(if x.event.op == RESERVE then s.incarnation else life.last, life.slots[x.event.slot := s]),
       Result(Ok, value))
  }

  lemma StepValid(life: Life, x: Input)
    requires Valid(life)
    ensures Valid(Step(life, x).0)
  {
  }

  // ---------- the C code ----------

  // The caller table as the source writes it: by operation, then actor.
  predicate Permitted(actor: Actor, op: u64)
    ensures Permitted(actor, op) <==> Trusted(actor, op)
  {
    if op == RESERVE || op == ACTIVATE then actor == Admin
    else if op == STARTED || op == STOPPED then actor == Supervisor
    else if op == BEGIN || op == COMPLETE || op == DRAINED then actor == Broker
    else if op == CONTAIN then actor == Admin || actor == Supervisor || actor == Detector
    else false
  }

  // The memory behind a `struct tcs_lifecycle *`, held by its single owner.
  class LifecycleOwner {
    var life: Life

    constructor (initial: Life)
      ensures life == initial
    {
      life := initial;
    }

    method IsValid() returns (ok: bool)
      ensures ok <==> Valid(life)
    {
      var occupied := 0;
      var i := 0;
      while i < SLOTS
        invariant 0 <= i <= SLOTS
        invariant forall k | 0 <= k < i :: SlotValid(life.slots[k], life.last)
        invariant i == 2 && life.slots[0].state != UNUSED && life.slots[1].state != UNUSED ==>
                    life.slots[0].incarnation != life.slots[1].incarnation
        invariant occupied == (if 0 < i && life.slots[0].Occupied() then 1 else 0)
                              + (if 1 < i && life.slots[1].Occupied() then 1 else 0)
      {
        var s := life.slots[i];
        if s.state > RETIRED || s.stopped > 1 || s.drained > 1 { return false; }
        if s.state == UNUSED {
          if s.incarnation != 0 || s.issued != 0 || s.pending != 0 || s.stopped != 0 || s.drained != 0 {
            return false;
          }
          i := i + 1;
          continue;
        }
        if s.incarnation == 0 || s.incarnation > life.last || (s.pending != 0 && s.pending != s.issued) {
          return false;
        }
        var j := 0;
        while j < i
          invariant 0 <= j <= i
          invariant 0 < j ==> s.incarnation != life.slots[0].incarnation
        {
          if s.incarnation == life.slots[j].incarnation { return false; }
          j := j + 1;
        }
        if s.state != RETIRED { occupied := occupied + 1; }
        if s.state == STARTING || s.state == READY {
          if s.issued != 0 || s.pending != 0 { return false; }
        }
        if s.state < CLOSING && (s.stopped != 0 || s.drained != 0) { return false; }
        if s.drained != 0 && s.pending != 0 { return false; }
        if s.state == CLOSING && s.stopped != 0 && s.drained != 0 { return false; }
        if s.state == RETIRED && (s.stopped == 0 || s.drained == 0 || s.pending != 0) { return false; }
        i := i + 1;
      }
      ok := occupied <= 1;
    }

    method Apply(actor: Actor, e: Event, auditOk: bool) returns (r: Result)
      modifies this
      ensures (life, r) == Step(old(life), Input(actor, e, auditOk))
    {
      var ok := IsValid();
      if !ok || e.slot >= SLOTS || e.op < RESERVE || e.op > DRAINED { return Result(Invalid, 0); }
      if !Permitted(actor, e.op) { return Result(Denied, 0); }
      if (e.op != COMPLETE && e.op != STOPPED && e.op != DRAINED && e.sequence != 0)
        || (e.op == COMPLETE && e.sequence == 0)
        || (if e.op == RESERVE then e.incarnation != 0 else e.incarnation == 0)
      {
        return Result(Invalid, 0);
      }

      var next := life;
      var s := next.slots[e.slot];
      if e.op != RESERVE && e.incarnation != s.incarnation { return Result(Stale, 0); }
      var value := s.incarnation;
      if e.op == RESERVE {
        if s.state != UNUSED { return Result(BadState, 0); }
        var i := 0;
        while i < SLOTS
          invariant 0 <= i <= SLOTS
          invariant forall k | 0 <= k < i :: !life.slots[k].Occupied()
        {
          if next.slots[i].state != UNUSED && next.slots[i].state != RETIRED {
            return Result(BadState, 0);
          }
          i := i + 1;
        }
        if next.last == U64_MAX { return Result(Exhausted, 0); }
        if !auditOk { return Result(AuditRequired, 0); }
        next := next.(last := next.last + 1);
        s := s.(incarnation := next.last);
        s := s.(state := STARTING);
        value := s.incarnation;
      } else if e.op == STARTED {
        if s.state != STARTING { return Result(BadState, 0); }
        s := s.(state := READY);
      } else if e.op == ACTIVATE {
        if s.state != READY { return Result(BadState, 0); }
        if !auditOk { return Result(AuditRequired, 0); }
        s := s.(state := ACTIVE);
      } else if e.op == BEGIN {
        if s.state != ACTIVE || s.pending != 0 { return Result(BadState, 0); }
        if s.issued == U64_MAX { return Result(Exhausted, 0); }
        s := s.(issued := s.issued + 1);
        s := s.(pending := s.issued);
        value := s.pending;
      } else if e.op == COMPLETE {
        if s.state != ACTIVE { return Result(BadState, 0); }
        if s.pending != e.sequence { return Result(Stale, 0); }
        s := s.(pending := 0);
        value := e.sequence;
      } else if e.op == CONTAIN {
        if s.state < STARTING || s.state > ACTIVE { return Result(BadState, 0); }
        // The gate closes even without audit; uncertain work stays pending.
        s := s.(state := CLOSING);
      } else {
        if s.state != CLOSING { return Result(BadState, 0); }
        if e.sequence != s.issued { return Result(Stale, 0); }
        if e.op == STOPPED {
          if s.stopped != 0 { return Result(BadState, 0); }
          s := s.(stopped := 1);
        } else {
          if s.drained != 0 { return Result(BadState, 0); }
          s := s.(drained := 1);
          s := s.(pending := 0);
        }
        if s.stopped != 0 && s.drained != 0 { s := s.(state := RETIRED); }
      }
      next := next.(slots := next.slots[e.slot := s]);
      life := next;
      return Result(Ok, value);
    }
  }
}

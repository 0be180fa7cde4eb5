// What each lifecycle event answers and does, case by case, and when the work gate
// is open: the promises a caller relies on, stated of the state machine as a whole.

module LifecycleOutcomes {
  import opened Words
  import opened Lifecycle
  import opened LifecycleRuns

  // Slot i becomes s; the event is answered with this value.
  function Granted(life: Life, i: u64, s: Slot, value: u64): (Life, Result)
    requires i < SLOTS
  {
    (life.(slots := life.slots[i := s]), Result(Ok, value))
  }

  function Denial(life: Life, status: Status): (Life, Result) { (life, Result(status, 0)) }

  // Selecting a worker needs a fresh slot, no other worker, a new incarnation and
  // an audit record.
  lemma ReserveOutcome(life: Life, i: u64, audit: bool)
    requires Valid(life) && i < SLOTS
    ensures Step(life, Input(Admin, Event(RESERVE, i, 0, 0), audit)) ==
              if life.slots[i].state != UNUSED || life.slots[1 - i].Occupied() then Denial(life, BadState)
              else if life.last == U64_MAX then Denial(life, Exhausted)
              else if !audit then Denial(life, AuditRequired)
              else
                (Life(life.last + 1, life.slots[i := Slot(STARTING, life.last + 1, 0, 0, 0, 0)]), Result(Ok, life.last + 1))
  {
    assert SlotValid(life.slots[i], life.last);
  }

  lemma StartedOutcome(life: Life, i: u64, audit: bool)
    requires Valid(life) && i < SLOTS && life.slots[i].state != UNUSED
    ensures var s := life.slots[i];
            Step(life, Input(Supervisor, Event(STARTED, i, s.incarnation, 0), audit)) ==
              if s.state == STARTING then Granted(life, i, s.(state := READY), s.incarnation) else Denial(life, BadState)
  {
    assert SlotValid(life.slots[i], life.last);
  }

  // Activation is audited separately.
  lemma ActivateOutcome(life: Life, i: u64, audit: bool)
    requires Valid(life) && i < SLOTS && life.slots[i].state != UNUSED
    ensures var s := life.slots[i];
            Step(life, Input(Admin, Event(ACTIVATE, i, s.incarnation, 0), audit)) ==
              if s.state != READY then Denial(life, BadState)
              else if !audit then Denial(life, AuditRequired)
              else Granted(life, i, s.(state := ACTIVE), s.incarnation)
  {
    assert SlotValid(life.slots[i], life.last);
  }

  // One ticket at a time, numbered upwards.
  lemma BeginOutcome(life: Life, i: u64, audit: bool)
    requires Valid(life) && i < SLOTS && life.slots[i].state != UNUSED
    ensures var s := life.slots[i];
            Step(life, Input(Broker, Event(BEGIN, i, s.incarnation, 0), audit)) ==
              if s.state != ACTIVE || s.pending != 0 then Denial(life, BadState)
              else if s.issued == U64_MAX then Denial(life, Exhausted)
              else Granted(life, i, s.(issued := s.issued + 1, pending := s.issued + 1), s.issued + 1)
  {
    assert SlotValid(life.slots[i], life.last);
  }

  lemma CompleteOutcome(life: Life, i: u64, sequence: u64, audit: bool)
    requires Valid(life) && i < SLOTS && life.slots[i].state != UNUSED && sequence != 0
    ensures var s := life.slots[i];
            Step(life, Input(Broker, Event(COMPLETE, i, s.incarnation, sequence), audit)) ==
              if s.state != ACTIVE then Denial(life, BadState)
              else if s.pending != sequence then Denial(life, Stale)
              else Granted(life, i, s.(pending := 0), sequence)
  {
    assert SlotValid(life.slots[i], life.last);
  }

  // Containment needs no audit and keeps the pending ticket.
  lemma ContainOutcome(life: Life, i: u64, actor: Actor, audit: bool)
    requires Valid(life) && i < SLOTS && life.slots[i].state != UNUSED
    requires actor == Admin || actor == Supervisor || actor == Detector
    ensures var s := life.slots[i];
            Step(life, Input(actor, Event(CONTAIN, i, s.incarnation, 0), audit)) ==
              if s.Live() then Granted(life, i, s.(state := CLOSING), s.incarnation) else Denial(life, BadState)
  {
    assert SlotValid(life.slots[i], life.last);
  }

  // Each confirmation counts once, for the final number of tickets issued; the
  // second of the two retires the slot.
  lemma StoppedOutcome(life: Life, i: u64, sequence: u64, audit: bool)
    requires Valid(life) && i < SLOTS && life.slots[i].state != UNUSED
    ensures var s := life.slots[i];
            Step(life, Input(Supervisor, Event(STOPPED, i, s.incarnation, sequence), audit)) ==
              if s.state != CLOSING then Denial(life, BadState)
              else if sequence != s.issued then Denial(life, Stale)
              else if s.stopped == 1 then Denial(life, BadState)
              else Granted(life, i, s.(stopped := 1, state := if s.drained == 1 then RETIRED else CLOSING), s.incarnation)
  {
    assert SlotValid(life.slots[i], life.last);
  }

  lemma DrainedOutcome(life: Life, i: u64, sequence: u64, audit: bool)
    requires Valid(life) && i < SLOTS && life.slots[i].state != UNUSED
    ensures var s := life.slots[i];
            Step(life, Input(Broker, Event(DRAINED, i, s.incarnation, sequence), audit)) ==
              if s.state != CLOSING then Denial(life, BadState)
              else if sequence != s.issued then Denial(life, Stale)
              else if s.drained == 1 then Denial(life, BadState)
              else
                Granted(life, i, s.(drained := 1, pending := 0, state := if s.stopped == 1 then RETIRED else CLOSING),
                        s.incarnation)
  {
    assert SlotValid(life.slots[i], life.last);
  }

  // An event for another incarnation is stale, whatever it asks.
  lemma StaleOutcome(life: Life, x: Input)
    requires Valid(life) && x.event.slot < SLOTS && STARTED <= x.event.op <= DRAINED && Permitted(x.actor, x.event.op)
    requires x.event.incarnation != 0 && x.event.incarnation != life.slots[x.event.slot].incarnation
    requires if x.event.op == COMPLETE then x.event.sequence != 0
             else x.event.op == STOPPED || x.event.op == DRAINED || x.event.sequence == 0
    ensures Step(life, x) == Denial(life, Stale)
  {
  }

  // An event that names no incarnation is invalid, save a selection.
  lemma UnnamedOutcome(life: Life, x: Input)
    requires Valid(life) && x.event.slot < SLOTS && Permitted(x.actor, x.event.op)
    requires x.event.op != RESERVE && x.event.incarnation == 0
    ensures Step(life, x) == Denial(life, Invalid)
  {
  }

  // Callers without the authority are told so before anything else is looked at
  // but the slot and the operation.
  lemma DeniedOutcome(life: Life, x: Input)
    requires Valid(life) && x.event.slot < SLOTS && RESERVE <= x.event.op <= DRAINED
    ensures Step(life, x).1.status == Denied <==> !Permitted(x.actor, x.event.op)
  {
  }

  // Malformed events.
  lemma InvalidOutcome(life: Life, x: Input)
    ensures var e := x.event;
            Step(life, x).1.status == Invalid <==>
              || !Valid(life) || e.slot >= SLOTS || e.op == 0 || e.op > DRAINED
              || (Permitted(x.actor, e.op) &&
                  (|| (e.op == RESERVE && e.incarnation != 0) || (e.op != RESERVE && e.incarnation == 0)
                   || (e.op == COMPLETE && e.sequence == 0)
                   || (e.op != COMPLETE && e.op != STOPPED && e.op != DRAINED && e.sequence != 0)))
  {
  }

  // ---------- audit ----------

  // Nothing selects or activates a worker without an audit record, and the audit
  // is all that is missing when it is asked for.
  lemma AuditNeeded(life: Life, x: Input)
    ensures Step(life, x).1.status == Ok && (x.event.op == RESERVE || x.event.op == ACTIVATE) ==> x.audit
    ensures Step(life, x).1.status == AuditRequired <==>
              && !x.audit && (x.event.op == RESERVE || x.event.op == ACTIVATE)
              && Step(life, x.(audit := true)).1.status == Ok
    ensures x.event.op != RESERVE && x.event.op != ACTIVATE ==> Step(life, x) == Step(life, x.(audit := !x.audit))
  {
  }

  // An audited selection of slot i, later an audited activation.
  predicate AuditedTwice(xs: seq<Input>, n: nat, i: u64, p: nat, q: nat)
    requires n <= |xs|
  {
    && p < q < n && AcceptedOn(xs, p, RESERVE, i) && AcceptedOn(xs, q, ACTIVATE, i)
    && xs[p].audit && xs[q].audit
  }

  ghost predicate Audited(xs: seq<Input>, n: nat, i: u64)
    requires n <= |xs|
  {
    exists p: nat, q: nat :: AuditedTwice(xs, n, i, p, q)
  }

  lemma AuditedMore(xs: seq<Input>, n: nat, i: u64)
    requires n < |xs| && Audited(xs, n, i)
    ensures Audited(xs, n + 1, i)
  {
    hide AcceptedOn;
    var p: nat, q: nat :| AuditedTwice(xs, n, i, p, q);
    assert AuditedTwice(xs, n + 1, i, p, q);
  }

  lemma ActivatedNow(xs: seq<Input>, q: nat, i: u64)
    requires q < |xs| && i < SLOTS && AcceptedOn(xs, q, ACTIVATE, i)
    ensures Audited(xs, q + 1, i)
  {
    hide HistoryAt, State;
    var life, x := State(xs, q), xs[q];
    SlotMoves(life, x);
    HistoryExplains(xs, q, i);
    HistoryGenuine(xs, q, i, RESERVE);
    var p := HistoryAt(xs, q, i).reserved.time;
    AuditNeeded(life, x);
    AuditNeeded(State(xs, p), xs[p]);
    assert AuditedTwice(xs, q + 1, i, p, q);
  }

  // Every worker that is active was selected and then activated, each time with an
  // audit record.
  lemma {:induction false} ActiveAudited(xs: seq<Input>, n: nat, i: u64)
    requires n <= |xs| && i < SLOTS && State(xs, n).slots[i].state == ACTIVE
    ensures Audited(xs, n, i)
  {
    hide Audited, Step, Check;
    var life, x := State(xs, n - 1), xs[n - 1];
    StepFrame(life, x);
    if life.slots[i].state == ACTIVE {
      ActiveAudited(xs, n - 1, i);
      AuditedMore(xs, n - 1, i);
    } else {
      if Check(life, x) == Ok { SlotMoves(life, x); }
      ActivatedNow(xs, n - 1, i);
    }
  }

  // ---------- the work gate ----------

  ghost predicate Activated(xs: seq<Input>, n: nat, i: u64)
    requires n <= |xs|
  {
    exists q: nat :: q < n && AcceptedOn(xs, q, ACTIVATE, i)
  }

  lemma ActiveAfter(xs: seq<Input>, q: nat, n: nat, i: u64)
    requires q < n <= |xs| && i < SLOTS && AcceptedOn(xs, q, ACTIVATE, i)
    ensures ACTIVE <= State(xs, n).slots[i].state
  {
    hide HistoryAt;
    SlotMoves(State(xs, q), xs[q]);
    RunOnward(xs, q + 1, n, i);
  }

  // The gate of a slot is open exactly from its activation to its containment, for
  // the incarnation it was reserved with.
  lemma WorkGateExact(xs: seq<Input>, n: nat, i: u64, incarnation: u64)
    requires n <= |xs| && i < SLOTS
    ensures var h := HistoryAt(xs, n, i);
            Allows(State(xs, n), i, incarnation) <==>
              Activated(xs, n, i) && !h.contained.Noted? && h.reserved.Noted? && h.reserved.value == incarnation
  {
    hide State, HistoryAt, AcceptedOn;
    var s := State(xs, n).slots[i];
    RunValid(xs, n);
    HistoryExplains(xs, n, i);
    assert SlotValid(s, State(xs, n).last);
    if s.state == ACTIVE {
      ActiveAudited(xs, n, i);
      var p: nat, q: nat :| AuditedTwice(xs, n, i, p, q);
      assert Activated(xs, n, i);
    }
    if q: nat :| q < n && AcceptedOn(xs, q, ACTIVATE, i) { ActiveAfter(xs, q, n, i); }
  }

}

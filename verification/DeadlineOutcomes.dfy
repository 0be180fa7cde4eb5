// What the latch and the deadline owner answer and do, case by case, and what they
// never stand in the way of.

module DeadlineOutcomes {
  import opened Words
  import opened Lifecycle
  import opened LifecycleRuns
  import LifecycleOutcomes
  import opened Reduction
  import opened Deadline
  import opened DeadlineRuns

  // ---------- the latch ----------

  // Every request bit is remembered, an unknown bit counts against both slots, and
  // a slot is closed exactly when it is live and inhibited.
  lemma PollOutcome(c: Control, sample: Bits, i: u64)
    requires RdValid(c) && i < SLOTS
    ensures var malformed := exists b :: b in sample && b >= SLOTS;
            var (next, answer) := Poll(c, sample);
            && answer == (if malformed then Malformed else PollOk)
            && next.inputFault == (if malformed then 1 else c.inputFault)
            && (i in next.inhibited <==> i in c.inhibited || i in sample || malformed)
            && next.life.last == c.life.last
            && next.life.slots[i] ==
                 var s := c.life.slots[i];
                 if (i in sample || malformed) && STARTING <= s.state <= ACTIVE then s.(state := CLOSING) else s
  {
    if IsMalformed(sample) {
      var b :| b in sample && b !in ALL;
      assert b >= SLOTS;
    }
  }

  // Only selection and activation of an inhibited slot are refused; every other
  // event meets the lifecycle rules.
  lemma RdOutcome(c: Control, sample: Bits, x: Input)
    requires RdValid(c)
    ensures var polled, e := Poll(c, sample).0, x.event;
            Apply(c, sample, x) ==
              if (e.op == RESERVE || e.op == ACTIVATE) && e.slot < SLOTS && e.slot in polled.inhibited
              then (polled, Result(Denied, 0))
              else (polled.(life := Step(polled.life, x).0), Step(polled.life, x).1)
  {
  }

  // An inhibited worker can be confirmed stopped and drained.
  lemma ConfirmationOutcome(c: Control, sample: Bits, i: u64, op: u64, audit: bool)
    requires RdValid(c) && i < SLOTS && c.life.slots[i].state == CLOSING
    requires op == STOPPED || op == DRAINED
    requires (if op == STOPPED then c.life.slots[i].stopped else c.life.slots[i].drained) == 0
    ensures var s := c.life.slots[i];
            var x := Input(if op == STOPPED then Supervisor else Broker, Event(op, i, s.incarnation, s.issued), audit);
            Apply(c, sample, x).1 == Result(Ok, s.incarnation)
  {
    hide Valid;
    PollValid(c, sample);
    var life := Poll(c, sample).0.life;
    assert life.slots[i] == c.life.slots[i];
    if op == STOPPED {
      LifecycleOutcomes.StoppedOutcome(life, i, life.slots[i].issued, audit);
    } else {
      LifecycleOutcomes.DrainedOutcome(life, i, life.slots[i].issued, audit);
    }
  }

  // The gate opens for every active slot and for no other.
  lemma RdGateOutcome(c: Control, i: u64, incarnation: u64)
    requires RdValid(c) && i < SLOTS
    ensures var s := c.life.slots[i];
            RdAllows(c, i, incarnation) <==> s.state == ACTIVE && s.incarnation == incarnation
  {
    assert SlotValid(c.life.slots[i], c.life.last);
  }

  // ---------- acceptance under a clock ----------

  // Nothing the call observes stands against slot i.
  predicate Clear(d: Deadline, requests: Bits, reading: Reading, i: u64)
    requires i < SLOTS
  {
    && d.clockFault == 0 && reading.ok && d.lastTick <= reading.tick
    && i !in d.control.inhibited && i !in requests && requests <= ALL
    && (d.end[i] == 0 || reading.tick < d.end[i])
  }

  // The duration an event carries fits it.
  predicate Fits(op: u64, tick: u64, duration: u64) {
    if op == RESERVE then duration != 0 && tick + duration <= U64_MAX else duration == 0
  }

  lemma ClearObserved(d: Deadline, requests: Bits, reading: Reading, i: u64)
    requires DlValid(d) && i < SLOTS
    ensures var polled := DlPoll(d, requests, reading).0;
            Clear(d, requests, reading, i) <==> i !in polled.control.inhibited && !Suspect(d, reading)
  {
    hide Valid, Latched;
  }

  lemma ClearPoll(d: Deadline, requests: Bits, reading: Reading, i: u64, x: Input)
    requires DlValid(d) && i < SLOTS && Clear(d, requests, reading, i) && x.event.slot == i
    ensures var polled := DlPoll(d, requests, reading).0;
            && polled.lastTick == reading.tick
            && polled.control.life.slots[i] == d.control.life.slots[i]
            && Step(polled.control.life, x).1 == Step(d.control.life, x).1
  {
    hide Demands;
    DlPollValid(d, requests, reading);
    ClearObserved(d, requests, reading, i);
  }

  lemma ShutRefuses(d: Deadline, requests: Bits, reading: Reading, x: Input, duration: u64)
    requires DlValid(d) && x.event.slot < SLOTS && RESERVE <= x.event.op <= COMPLETE
    requires !Clear(d, requests, reading, x.event.slot)
    ensures DlApply(d, requests, reading, x, duration).1.status != Ok
  {
    DlPollValid(d, requests, reading);
    ClearObserved(d, requests, reading, x.event.slot);
    QuietPoll(DlPoll(d, requests, reading).0.control);
  }

  lemma AcceptedClear(d: Deadline, requests: Bits, reading: Reading, x: Input, duration: u64)
    requires DlValid(d) && x.event.slot < SLOTS && RESERVE <= x.event.op <= COMPLETE
    requires Clear(d, requests, reading, x.event.slot)
    ensures var e, (next, r) := x.event, DlApply(d, requests, reading, x, duration);
            var result := Step(DlPoll(d, requests, reading).0.control.life, x);
            && (r.status == Ok <==> Fits(e.op, reading.tick, duration) && result.1.status == Ok)
            && (r.status == Ok ==>
                  && r == result.1 && next.control.life.slots[e.slot] == result.0.slots[e.slot]
                  && next.end == if e.op == RESERVE then d.end[e.slot := reading.tick + duration] else d.end)
  {
    hide Step;
    DlPollValid(d, requests, reading);
    ClearObserved(d, requests, reading, x.event.slot);
    QuietPoll(DlPoll(d, requests, reading).0.control);
  }

  // Selection, start, activation and work are accepted exactly when the lifecycle
  // accepts them, the duration fits the event and nothing observed stands against
  // the slot; an accepted selection ends at the tick plus the duration.
  lemma AcceptedExactly(d: Deadline, requests: Bits, reading: Reading, x: Input, duration: u64)
    requires DlValid(d) && x.event.slot < SLOTS && RESERVE <= x.event.op <= COMPLETE
    ensures var e, (next, r) := x.event, DlApply(d, requests, reading, x, duration);
            && (r.status == Ok <==>
                  && Step(d.control.life, x).1.status == Ok && Fits(e.op, reading.tick, duration)
                  && Clear(d, requests, reading, e.slot))
            && (r.status == Ok ==>
                  && r == Step(d.control.life, x).1
                  && next.control.life.slots[e.slot] == Step(d.control.life, x).0.slots[e.slot]
                  && next.end == if e.op == RESERVE then d.end[e.slot := reading.tick + duration] else d.end)
  {
    var i := x.event.slot;
    if Clear(d, requests, reading, i) {
      ClearPoll(d, requests, reading, i, x);
      AcceptedClear(d, requests, reading, x, duration);
    } else {
      ShutRefuses(d, requests, reading, x, duration);
    }
  }

  // ---------- retirement ----------

  // This call reports the stop or the drain of the worker in slot i.
  predicate Confirms(call: Call, op: u64, i: u64, s: Slot) {
    && call.ApplyCall? && call.duration == 0 && call.x.event == Event(op, i, s.incarnation, s.issued)
    && call.x.actor == if op == STOPPED then Supervisor else Broker
  }

  predicate Reported(calls: seq<Call>, m: nat, n: nat, op: u64, i: u64, s: Slot)
    requires m <= n <= |calls|
  {
    exists k :: m <= k < n && Confirms(calls[k], op, i, s)
  }

  // A contained slot keeps its incarnation and its count of tickets, and a
  // confirmation is set exactly by the call that reports it.
  predicate Onward(s: Slot, next: Slot, stopped: bool, drained: bool) {
    && CLOSING <= next.state && next.incarnation == s.incarnation && next.issued == s.issued
    && (next.stopped == 1 <==> s.stopped == 1 || stopped)
    && (next.drained == 1 <==> s.drained == 1 || drained)
  }

  lemma ClosingStep(life: Life, x: Input, i: u64)
    requires Valid(life) && i < SLOTS && CLOSING <= life.slots[i].state
    ensures var s := life.slots[i];
            Onward(s, Step(life, x).0.slots[i],
                   x.actor == Supervisor && x.event == Event(STOPPED, i, s.incarnation, s.issued),
                   x.actor == Broker && x.event == Event(DRAINED, i, s.incarnation, s.issued))
  {
    assert SlotValid(life.slots[i], life.last);
  }

  lemma PollKeepsClosed(d: Deadline, requests: Bits, reading: Reading, i: u64)
    requires DlValid(d) && i < SLOTS && CLOSING <= d.control.life.slots[i].state
    ensures DlPoll(d, requests, reading).0.control.life.slots[i] == d.control.life.slots[i]
  {
    hide Valid;
  }

  lemma ClosingCall(d: Deadline, call: Call, i: u64)
    requires DlValid(d) && i < SLOTS && CLOSING <= d.control.life.slots[i].state
    ensures var s := d.control.life.slots[i];
            Onward(s, DlStep(d, call).control.life.slots[i], Confirms(call, STOPPED, i, s), Confirms(call, DRAINED, i, s))
  {
    hide Step, Valid, DlPoll;
    DlPollValid(d, call.requests, call.reading);
    PollKeepsClosed(d, call.requests, call.reading, i);
    var polled := DlPoll(d, call.requests, call.reading).0;
    if call.ApplyCall? {
      QuietPoll(polled.control);
      ClosingStep(polled.control.life, call.x, i);
      StepFrame(polled.control.life, call.x);
    }
  }

  lemma ConfirmsSame(call: Call, i: u64, s: Slot, now: Slot)
    requires s.incarnation == now.incarnation && s.issued == now.issued
    ensures Confirms(call, STOPPED, i, s) <==> Confirms(call, STOPPED, i, now)
    ensures Confirms(call, DRAINED, i, s) <==> Confirms(call, DRAINED, i, now)
  {
  }

  lemma {:induction false} ClosingOnward(calls: seq<Call>, m: nat, n: nat, i: u64)
    requires m <= n <= |calls| && i < SLOTS && CLOSING <= Owner(calls, m).control.life.slots[i].state
    ensures var s := Owner(calls, m).control.life.slots[i];
            Onward(s, Owner(calls, n).control.life.slots[i],
                   Reported(calls, m, n, STOPPED, i, s), Reported(calls, m, n, DRAINED, i, s))
    decreases n
  {
    hide Confirms, DlStep, DlValid;
    if m < n {
      ClosingOnward(calls, m, n - 1, i);
      OwnerValid(calls, n - 1);
      ClosingCall(Owner(calls, n - 1), calls[n - 1], i);
      ConfirmsSame(calls[n - 1], i, Owner(calls, m).control.life.slots[i], Owner(calls, n - 1).control.life.slots[i]);
    }
  }

  // Whatever is inhibited, expired or faulted, and whatever else happens in
  // between: a contained worker is retired exactly when its stop and its drain
  // have both been reported, in either order, for its last ticket.
  lemma RetiredExactly(calls: seq<Call>, m: nat, n: nat, i: u64)
    requires m <= n <= |calls| && i < SLOTS && Owner(calls, m).control.life.slots[i].state == CLOSING
    ensures var s := Owner(calls, m).control.life.slots[i];
            Owner(calls, n).control.life.slots[i].state == RETIRED <==>
              && (s.stopped == 1 || Reported(calls, m, n, STOPPED, i, s))
              && (s.drained == 1 || Reported(calls, m, n, DRAINED, i, s))
  {
    hide DlStep, Reported;
    OwnerValid(calls, n);
    ClosingOnward(calls, m, n, i);
    assert SlotValid(Owner(calls, n).control.life.slots[i], Owner(calls, n).control.life.last);
  }

  // Each of the two reports is answered with the incarnation when it is new.
  lemma ConfirmationAccepted(calls: seq<Call>, n: nat, i: u64, op: u64)
    requires n < |calls| && i < SLOTS && (op == STOPPED || op == DRAINED)
    requires var s := Owner(calls, n).control.life.slots[i];
             s.state == CLOSING && Confirms(calls[n], op, i, s) && (if op == STOPPED then s.stopped else s.drained) == 0
    ensures var d, call := Owner(calls, n), calls[n];
            DlApply(d, call.requests, call.reading, call.x, 0).1 == Result(Ok, d.control.life.slots[i].incarnation)
  {
    hide DlStep, Step, Valid;
    var d, call := Owner(calls, n), calls[n];
    OwnerValid(calls, n);
    DlPollValid(d, call.requests, call.reading);
    ConfirmationOutcome(DlPoll(d, call.requests, call.reading).0.control, {}, i, op, call.x.audit);
  }

  // ---------- an invalid owner ----------

  // An owner whose state is not valid does nothing, opens no gate and asks for
  // both workers to be stopped.
  lemma FailClosed(d: Deadline, requests: Bits, reading: Reading, x: Input, duration: u64, i: u64, incarnation: u64)
    requires !DlValid(d)
    ensures DlPoll(d, requests, reading) == (d, DlInvalidState)
    ensures DlApply(d, requests, reading, x, duration) == (d, Result(Invalid, 0))
    ensures DlStopMask(d) == {0, 1} && !DlAllows(d, i, incarnation)
    ensures !RdValid(d.control) ==>
              && Poll(d.control, requests) == (d.control, InvalidState) && StopMask(d.control) == {0, 1}
              && Apply(d.control, requests, x) == (d.control, Result(Invalid, 0)) && !RdAllows(d.control, i, incarnation)
  {
  }

  // ---------- answers over runs ----------

  lemma PollFault(d: Deadline, requests: Bits, reading: Reading)
    requires DlValid(d)
    ensures var (next, answer) := DlPoll(d, requests, reading);
            answer == if next.clockFault == 0 && next.control.inputFault != 1 then DlOk else DlFault
  {
    DlPollValid(d, requests, reading);
  }

  // A poll reports a fault exactly when some reading so far was not vouched for or
  // ran backwards, or some request word so far had an unknown bit.
  lemma PollAnswer(calls: seq<Call>, n: nat)
    requires n < |calls| && calls[n].PollCall?
    ensures DlPoll(Owner(calls, n), calls[n].requests, calls[n].reading).1 ==
              if Steady(calls, n + 1) && forall k | 0 <= k <= n :: calls[k].requests <= ALL then DlOk else DlFault
  {
    hide DlValid, DlPoll, Steady, LongestSteady;
    var d := Owner(calls, n);
    OwnerValid(calls, n);
    PollFault(d, calls[n].requests, calls[n].reading);
    assert Owner(calls, n + 1) == DlPoll(d, calls[n].requests, calls[n].reading).0;
    ClockHistory(calls, n + 1);
    LongestSteadyIsLongest(calls, n + 1, n + 1);
    RequestHistory(calls, n + 1);
  }

  // The gate of a slot is open exactly from the activation to the containment the
  // run's own lifecycle events record, for the incarnation it was reserved with.
  lemma GateExact(calls: seq<Call>, n: nat, i: u64, incarnation: u64)
    requires n <= |calls| && i < SLOTS
    ensures var xs := Trace(calls, n);
            var h := HistoryAt(xs, |xs|, i);
            DlAllows(Owner(calls, n), i, incarnation) <==>
              LifecycleOutcomes.Activated(xs, |xs|, i) && !h.contained.Noted?
              && h.reserved.Noted? && h.reserved.value == incarnation
  {
    hide Trace, Owner;
    LayeredRefinement(calls, n);
    var xs, d := Trace(calls, n), Owner(calls, n);
    LifecycleOutcomes.WorkGateExact(xs, |xs|, i, incarnation);
    RdGateOutcome(d.control, i, incarnation);
  }
}

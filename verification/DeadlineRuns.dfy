// Whole runs of the deadline owner: any sequence of polls and events with any
// request words, clock readings, callers and durations, from the zero state.

module DeadlineRuns {
  import opened Words
  import opened Lifecycle
  import opened LifecycleRuns
  import opened Reduction
  import opened Deadline

  datatype Call =
    | PollCall(requests: Bits, reading: Reading)
    | ApplyCall(requests: Bits, reading: Reading, x: Input, duration: u64)

  function DlStep(d: Deadline, call: Call): Deadline {
    match call
    case PollCall(requests, reading) => DlPoll(d, requests, reading).0
    case ApplyCall(requests, reading, x, duration) => DlApply(d, requests, reading, x, duration).0
  }

  function Owner(calls: seq<Call>, n: nat): Deadline
    requires n <= |calls|
  {
    if n == 0 then START else DlStep(Owner(calls, n - 1), calls[n - 1])
  }

  predicate Accepts(d: Deadline, call: Call, op: u64, i: u64) {
    && call.ApplyCall? && call.x.event.op == op && call.x.event.slot == i
    && DlApply(d, call.requests, call.reading, call.x, call.duration).1.status == Ok
  }

  lemma DlStepValid(d: Deadline, call: Call)
    requires DlValid(d)
    ensures DlValid(DlStep(d, call))
  {
    DlPollValid(d, call.requests, call.reading);
    if call.ApplyCall? { DlApplyValid(d, call.requests, call.reading, call.x, call.duration); }
  }

  lemma {:induction false} OwnerValid(calls: seq<Call>, n: nat)
    requires n <= |calls|
    ensures DlValid(Owner(calls, n))
  {
    if n > 0 {
      OwnerValid(calls, n - 1);
      DlStepValid(Owner(calls, n - 1), calls[n - 1]);
    }
  }

  // ---------- refinement: the owner only ever runs the lifecycle table ----------

  // The containments one observation performs on behalf of the detector.
  function Containments(life: Life, bits: Bits): seq<Input> {
    (if 0 in bits && life.slots[0].Live() then [Containment(life, 0)] else [])
    + (if 1 in bits && life.slots[1].Live() then [Containment(life, 1)] else [])
  }

  // Whether the call's own event reaches the lifecycle rules.
  predicate Reaches(d: Deadline, call: Call) {
    && call.ApplyCall?
    && !BadDuration(d, call.x.event.op, call.duration) && !Refused(d.control, call.x.event)
  }

  // The lifecycle inputs one call amounts to.
  function Emits(d: Deadline, call: Call): seq<Input> {
    var polled := DlPoll(d, call.requests, call.reading).0;
    Containments(d.control.life, polled.control.inhibited) + (if Reaches(polled, call) then [call.x] else [])
  }

  function Trace(calls: seq<Call>, n: nat): seq<Input>
    requires n <= |calls|
  {
    if n == 0 then [] else Trace(calls, n - 1) + Emits(Owner(calls, n - 1), calls[n - 1])
  }

  function Run(life: Life, xs: seq<Input>): Life
    decreases |xs|
  {
    if xs == [] then life else Run(Step(life, xs[0]).0, xs[1..])
  }

  lemma {:induction false} StateOfPrefix(xs: seq<Input>, ys: seq<Input>, n: nat)
    requires n <= |xs|
    ensures State(xs + ys, n) == State(xs, n)
  {
    if n > 0 { StateOfPrefix(xs, ys, n - 1); }
  }

  lemma {:induction false} StateOfSum(xs: seq<Input>, ys: seq<Input>)
    ensures State(xs + ys, |xs + ys|) == Run(State(xs, |xs|), ys)
    decreases |ys|
  {
    if ys == [] {
      assert xs + ys == xs;
    } else {
      StateOfSum(xs + [ys[0]], ys[1..]);
      StateOfPrefix(xs, [ys[0]], |xs|);
      assert xs + ys == xs + [ys[0]] + ys[1..];
    }
  }

  // One observation is at most one accepted containment.
  lemma PollRefines(d: Deadline, requests: Bits, reading: Reading)
    requires DlValid(d)
    ensures var life, polled := d.control.life, DlPoll(d, requests, reading).0.control;
            var xs := Containments(life, polled.inhibited);
            && Run(life, xs) == polled.life && |xs| <= 1
            && (|xs| == 1 ==> Check(life, xs[0]) == Ok)
  {
    var life, bits := d.control.life, DlPoll(d, requests, reading).0.control.inhibited;
    assert Run(life, []) == life;
    forall i | 0 <= i < SLOTS && life.slots[i].Live() ensures Run(life, [Containment(life, i)]) == Step(life, Containment(life, i)).0 {
      assert Run(life, [Containment(life, i)]) == Run(Step(life, Containment(life, i)).0, []);
    }
    if 0 in bits && life.slots[0].Live() { ContainmentCloses(life, 0); }
    else if 1 in bits && life.slots[1].Live() { ContainmentCloses(life, 1); }
    assert Run(life, Containments(life, bits)).slots == Latched(life, bits).slots;
  }

  lemma {:induction false} RunOfSum(life: Life, xs: seq<Input>, ys: seq<Input>)
    ensures Run(life, xs + ys) == Run(Run(life, xs), ys)
    decreases |xs|
  {
    if xs == [] {
      assert xs + ys == ys;
    } else {
      assert (xs + ys)[1..] == xs[1..] + ys;
      RunOfSum(Step(life, xs[0]).0, xs[1..], ys);
    }
  }

  // A call is at most one containment followed by at most one event. The event is
  // invalid when its duration does not fit it, selection and activation of an
  // inhibited slot are denied, and everything else is answered by the lifecycle.
  lemma CallRefines(d: Deadline, call: Call)
    requires DlValid(d)
    ensures DlStep(d, call).control.life == Run(d.control.life, Emits(d, call))
    ensures |Emits(d, call)| <= 2
    ensures call.ApplyCall? ==>
              var polled, e := DlPoll(d, call.requests, call.reading).0, call.x.event;
              DlApply(d, call.requests, call.reading, call.x, call.duration).1 ==
                if e.op == RESERVE && (call.duration == 0 || polled.lastTick + call.duration > U64_MAX)
                then Result(Invalid, 0)
                else if e.op != RESERVE && call.duration != 0 then Result(Invalid, 0)
                else if (e.op == RESERVE || e.op == ACTIVATE) && e.slot < SLOTS && e.slot in polled.control.inhibited
                then Result(Denied, 0)
                else Step(polled.control.life, call.x).1
  {
    PollRefines(d, call.requests, call.reading);
    DlPollValid(d, call.requests, call.reading);
    var polled := DlPoll(d, call.requests, call.reading).0;
    var xs := Containments(d.control.life, polled.control.inhibited);
    QuietPoll(polled.control);
    if Reaches(polled, call) {
      RunOfSum(d.control.life, xs, [call.x]);
      assert Run(polled.control.life, [call.x]) == Run(Step(polled.control.life, call.x).0, []);
      StepFrame(polled.control.life, call.x);
    } else {
      assert Emits(d, call) == xs;
    }
  }

  lemma CallExtends(d: Deadline, call: Call, xs: seq<Input>)
    requires DlValid(d) && d.control.life == Run(ZERO, xs)
    ensures DlStep(d, call).control.life == Run(ZERO, xs + Emits(d, call))
    ensures |Emits(d, call)| <= 2
  {
    CallRefines(d, call);
    RunOfSum(ZERO, xs, Emits(d, call));
  }

  lemma {:induction false} TraceRun(calls: seq<Call>, n: nat)
    requires n <= |calls|
    ensures Owner(calls, n).control.life == Run(ZERO, Trace(calls, n))
    ensures |Trace(calls, n)| <= 2 * n
  {
    hide DlStep, Emits;
    if n > 0 {
      TraceRun(calls, n - 1);
      OwnerValid(calls, n - 1);
      CallExtends(Owner(calls, n - 1), calls[n - 1], Trace(calls, n - 1));
    }
  }

  // The lifecycle part of every run is itself a lifecycle run, so everything in
  // LifecycleRuns holds of it.
  lemma LayeredRefinement(calls: seq<Call>, n: nat)
    requires n <= |calls|
    ensures DlValid(Owner(calls, n))
    ensures Owner(calls, n).control.life == State(Trace(calls, n), |Trace(calls, n)|)
    ensures |Trace(calls, n)| <= 2 * n
  {
    OwnerValid(calls, n);
    TraceRun(calls, n);
    StateOfSum([], Trace(calls, n));
    assert [] + Trace(calls, n) == Trace(calls, n);
  }

  // The stop mask is exactly what the supervisor still owes: the slots whose
  // containment has been accepted in the run and whose stop has not.
  lemma StopsOwed(calls: seq<Call>, n: nat, i: u64)
    requires n <= |calls| && i < SLOTS
    ensures var h := HistoryAt(Trace(calls, n), |Trace(calls, n)|, i);
            i in DlStopMask(Owner(calls, n)) <==> h.contained.Noted? && !h.stopped.Noted?
  {
    hide Trace, Owner;
    LayeredRefinement(calls, n);
    HistoryExplains(Trace(calls, n), |Trace(calls, n)|, i);
    var d := Owner(calls, n);
    assert SlotValid(d.control.life.slots[i], d.control.life.last);
  }

  // ---------- what the sticky words remember ----------

  // The first g readings were vouched for and never ran backwards.
  predicate Steady(calls: seq<Call>, g: nat)
    requires g <= |calls|
  {
    && (forall k | 0 <= k < g :: calls[k].reading.ok)
    && (forall k | 0 < k < g :: calls[k - 1].reading.tick <= calls[k].reading.tick)
  }

  function LongestSteady(calls: seq<Call>, n: nat): (g: nat)
    requires n <= |calls|
    ensures g <= n
  {
    if n == 0 then 0
    else
      var g := LongestSteady(calls, n - 1);
      if g == n - 1 && calls[n - 1].reading.ok
        && (n == 1 || calls[n - 2].reading.tick <= calls[n - 1].reading.tick) then n
      else g
  }

  lemma {:induction false} LongestSteadyIsLongest(calls: seq<Call>, n: nat, g: nat)
    requires n <= |calls|
    ensures Steady(calls, LongestSteady(calls, n))
    ensures LongestSteady(calls, n) < g <= n ==> !Steady(calls, g)
  {
    if n > 0 {
      LongestSteadyIsLongest(calls, n - 1, if g < n then g else n - 1);
    }
  }

  function Asked(calls: seq<Call>, n: nat): Bits
    requires n <= |calls|
  {
    if n == 0 then {} else Asked(calls, n - 1) + Normal(calls[n - 1].requests)
  }

  function Lapsed(end: seq<u64>, tick: u64): Bits
    requires |end| == SLOTS
  {
    set i: nat | i < SLOTS && Expired(end, tick, i)
  }

  ghost predicate ClockRemembered(calls: seq<Call>, n: nat, d: Deadline)
    requires n <= |calls|
  {
    var g := LongestSteady(calls, n);
    (d.clockFault == 0 <==> g == n) && d.lastTick == (if g == 0 then 0 else calls[g - 1].reading.tick)
  }

  ghost predicate RequestsRemembered(calls: seq<Call>, n: nat, d: Deadline)
    requires n <= |calls|
  {
    && (d.control.inputFault == 1 <==> exists k :: 0 <= k < n && IsMalformed(calls[k].requests))
    && d.control.inhibited == Asked(calls, n) + Lapsed(d.end, d.lastTick) + (if d.clockFault == 1 then ALL else {})
  }

  // What one call leaves in the sticky words, whatever its own event does.
  ghost predicate Observed(d: Deadline, call: Call, next: Deadline) {
    var suspect := Suspect(d, call.reading);
    && next.clockFault == (if suspect then 1 else 0)
    && next.lastTick == (if suspect then d.lastTick else call.reading.tick)
    && next.control.inputFault == (if IsMalformed(call.requests) then 1 else d.control.inputFault)
    && next.control.inhibited == d.control.inhibited + Normal(call.requests)
                                 + (if suspect then ALL else Lapsed(d.end, call.reading.tick))
    && Lapsed(next.end, next.lastTick) == Lapsed(d.end, next.lastTick)
  }

  lemma DlPollObserved(d: Deadline, requests: Bits, reading: Reading)
    requires DlValid(d)
    ensures Observed(d, PollCall(requests, reading), DlPoll(d, requests, reading).0)
  {
    var demands := Demands(d, requests, reading);
    assert IsMalformed(demands) <==> IsMalformed(requests);
    assert demands * ALL == (requests * ALL) + if Suspect(d, reading) then ALL else Lapsed(d.end, reading.tick);
  }

  lemma DlStepObserved(d: Deadline, call: Call)
    requires DlValid(d)
    ensures Observed(d, call, DlStep(d, call))
  {
    DlPollObserved(d, call.requests, call.reading);
    DlPollValid(d, call.requests, call.reading);
    if call.ApplyCall? {
      var polled := DlPoll(d, call.requests, call.reading).0;
      QuietPoll(polled.control);
      if !BadDuration(polled, call.x.event.op, call.duration)
        && Apply(polled.control, {}, call.x).1.status == Ok && call.x.event.op == RESERVE
      {
        SlotMoves(polled.control.life, call.x);
      }
    }
  }

  lemma OwnerObserved(calls: seq<Call>, n: nat)
    requires 0 < n <= |calls|
    ensures Owner(calls, n - 1).clockFault <= 1
    ensures Observed(Owner(calls, n - 1), calls[n - 1], Owner(calls, n))
  {
    OwnerValid(calls, n - 1);
    DlStepObserved(Owner(calls, n - 1), calls[n - 1]);
  }

  lemma ClockStep(calls: seq<Call>, n: nat, d: Deadline, next: Deadline)
    requires 0 < n <= |calls| && d.clockFault <= 1
    requires Observed(d, calls[n - 1], next) && ClockRemembered(calls, n - 1, d)
    ensures ClockRemembered(calls, n, next)
  {
  }

  lemma ClockHistoryStep(calls: seq<Call>, n: nat, d: Deadline)
    requires 0 < n <= |calls| && d == Owner(calls, n - 1) && ClockRemembered(calls, n - 1, d)
    ensures ClockRemembered(calls, n, Owner(calls, n))
  {
    OwnerObserved(calls, n);
    ClockStep(calls, n, d, Owner(calls, n));
  }

  lemma {:induction false} ClockHistory(calls: seq<Call>, n: nat)
    requires n <= |calls|
    ensures ClockRemembered(calls, n, Owner(calls, n))
  {
    if n > 0 {
      ClockHistory(calls, n - 1);
      ClockHistoryStep(calls, n, Owner(calls, n - 1));
    }
  }

  lemma RequestStep(calls: seq<Call>, n: nat, d: Deadline, next: Deadline)
    requires 0 < n <= |calls| && d.clockFault <= 1
    requires Observed(d, calls[n - 1], next) && RequestsRemembered(calls, n - 1, d)
    ensures RequestsRemembered(calls, n, next)
  {
    assert Lapsed(d.end, d.lastTick) <= Lapsed(d.end, next.lastTick) <= ALL;
    assert d.clockFault == 1 ==> Suspect(d, calls[n - 1].reading);
  }

  lemma {:induction false} RequestHistory(calls: seq<Call>, n: nat)
    requires n <= |calls|
    ensures RequestsRemembered(calls, n, Owner(calls, n))
  {
    if n > 0 {
      RequestHistory(calls, n - 1);
      OwnerObserved(calls, n);
      RequestStep(calls, n, Owner(calls, n - 1), Owner(calls, n));
    } else {
      assert Lapsed(START.end, 0) == {};
    }
  }

  // The sticky words are exact functions of the history: the clock fault says
  // whether every reading so far was good, the last tick is that of the longest
  // good prefix, and a slot is inhibited exactly when it was asked for, its end
  // has been reached, or the clock failed.
  lemma HistoryRemembered(calls: seq<Call>, n: nat)
    requires n <= |calls|
    ensures ClockRemembered(calls, n, Owner(calls, n))
    ensures RequestsRemembered(calls, n, Owner(calls, n))
  {
    ClockHistory(calls, n);
    RequestHistory(calls, n);
  }

  // ---------- lifetimes ----------

  // What the accepted reservation of a slot promised: sampled tick and duration.
  datatype Lease = NoLease | Lease(time: nat, tick: u64, duration: u64, incarnation: u64)

  function Granted(time: nat, d: Deadline, call: Call): Lease
    requires call.ApplyCall?
  {
    Lease(time, call.reading.tick, call.duration,
          DlApply(d, call.requests, call.reading, call.x, call.duration).1.value)
  }

  function LeaseAt(calls: seq<Call>, n: nat, i: u64): Lease
    requires n <= |calls|
  {
    if n == 0 then NoLease
    else if Accepts(Owner(calls, n - 1), calls[n - 1], RESERVE, i) then Granted(n - 1, Owner(calls, n - 1), calls[n - 1])
    else LeaseAt(calls, n - 1, i)
  }

  predicate Holds(lease: Lease, d: Deadline, i: u64)
    requires i < SLOTS
  {
    && (lease.NoLease? <==> d.end[i] == 0)
    && (lease.Lease? ==> d.end[i] == lease.tick + lease.duration
                         && d.control.life.slots[i].incarnation == lease.incarnation)
  }

  // Work and phase changes are accepted only under a trusted clock and before the
  // end of the slot's lifetime, and they leave every end alone.
  lemma AcceptedInTime(d: Deadline, call: Call, op: u64, i: u64)
    requires DlValid(d) && i < SLOTS && Accepts(d, call, op, i)
    requires op == STARTED || op == ACTIVATE || op == BEGIN || op == COMPLETE
    ensures !Suspect(d, call.reading) && d.end[i] != 0 && call.reading.tick < d.end[i]
    ensures DlStep(d, call).end == d.end
    ensures call.x.event.incarnation == d.control.life.slots[i].incarnation
  {
    DlPollValid(d, call.requests, call.reading);
    var polled := DlPoll(d, call.requests, call.reading).0;
    QuietPoll(polled.control);
    SlotMoves(polled.control.life, call.x);
    assert polled.control.life.slots[i].Live();
  }

  lemma ReservedInTime(d: Deadline, call: Call, i: u64)
    requires DlValid(d) && i < SLOTS && Accepts(d, call, RESERVE, i)
    ensures !Suspect(d, call.reading) && d.end[i] == 0
    ensures Holds(Granted(0, d, call), DlStep(d, call), i)
    ensures DlStep(d, call).end[1 - i] == d.end[1 - i]
  {
    DlPollValid(d, call.requests, call.reading);
    var polled := DlPoll(d, call.requests, call.reading).0;
    QuietPoll(polled.control);
    SlotMoves(polled.control.life, call.x);
  }

  lemma EndKept(d: Deadline, call: Call, i: u64)
    requires DlValid(d) && i < SLOTS && !Accepts(d, call, RESERVE, i)
    ensures DlStep(d, call).end[i] == d.end[i]
    ensures d.end[i] != 0 ==> DlStep(d, call).control.life.slots[i].incarnation == d.control.life.slots[i].incarnation
  {
    hide Step, Valid;
    DlPollValid(d, call.requests, call.reading);
    if call.ApplyCall? {
      var polled := DlPoll(d, call.requests, call.reading).0;
      QuietPoll(polled.control);
      StepOnward(polled.control.life, call.x, i);
    }
  }

  lemma {:induction false} LeaseHolds(calls: seq<Call>, n: nat, i: u64)
    requires n <= |calls| && i < SLOTS
    ensures Holds(LeaseAt(calls, n, i), Owner(calls, n), i)
  {
    hide DlStep, Accepts, DlValid;
    if n > 0 {
      var d, call := Owner(calls, n - 1), calls[n - 1];
      OwnerValid(calls, n - 1);
      if Accepts(d, call, RESERVE, i) {
        ReservedInTime(d, call, i);
      } else {
        LeaseHolds(calls, n - 1, i);
        EndKept(d, call, i);
      }
    }
  }

  ghost predicate Genuine(calls: seq<Call>, n: nat, i: u64, lease: Lease)
    requires n <= |calls|
  {
    lease.Lease? ==> lease.time < n
                     && Accepts(Owner(calls, lease.time), calls[lease.time], RESERVE, i)
                     && lease == Granted(lease.time, Owner(calls, lease.time), calls[lease.time])
  }

  lemma {:induction false} LeaseGenuine(calls: seq<Call>, n: nat, i: u64)
    requires n <= |calls| && i < SLOTS
    ensures Genuine(calls, n, i, LeaseAt(calls, n, i))
  {
    hide Accepts, DlStep;
    if n > 0 { LeaseGenuine(calls, n - 1, i); }
  }

  lemma EndSticks(d: Deadline, call: Call, i: u64)
    requires DlValid(d) && i < SLOTS && d.end[i] != 0
    ensures DlStep(d, call).end[i] == d.end[i]
  {
    if Accepts(d, call, RESERVE, i) { ReservedInTime(d, call, i); } else { EndKept(d, call, i); }
  }

  // An end, once set, is never extended, cancelled, cleared or renewed.
  lemma {:induction false} EndNeverMoves(calls: seq<Call>, m: nat, n: nat, i: u64)
    requires m <= n <= |calls| && i < SLOTS && Owner(calls, m).end[i] != 0
    ensures Owner(calls, n).end[i] == Owner(calls, m).end[i]
    decreases n
  {
    hide DlStep, DlValid;
    if m < n {
      EndNeverMoves(calls, m, n - 1, i);
      OwnerValid(calls, n - 1);
      EndSticks(Owner(calls, n - 1), calls[n - 1], i);
    }
  }

  lemma GoodReadingSteady(calls: seq<Call>, k: nat, d: Deadline)
    requires k < |calls| && d.clockFault <= 1 && ClockRemembered(calls, k, d) && !Suspect(d, calls[k].reading)
    ensures Steady(calls, k + 1)
  {
    LongestSteadyIsLongest(calls, k, 0);
  }

  // Whenever STARTED, ACTIVATE, BEGIN or COMPLETE is accepted for a worker, its
  // reservation was accepted earlier in the run, the sampled tick is strictly
  // below that reservation's tick plus its duration, and no reading up to and
  // including this one was bad.
  lemma LifetimeBound(calls: seq<Call>, k: nat, op: u64, i: u64)
    requires k < |calls| && i < SLOTS && Accepts(Owner(calls, k), calls[k], op, i)
    requires op == STARTED || op == ACTIVATE || op == BEGIN || op == COMPLETE
    ensures var lease := LeaseAt(calls, k, i);
            && lease.Lease? && lease.time < k
            && Accepts(Owner(calls, lease.time), calls[lease.time], RESERVE, i)
            && lease == Granted(lease.time, Owner(calls, lease.time), calls[lease.time])
            && lease.incarnation == calls[k].x.event.incarnation
            && calls[k].reading.tick < lease.tick + lease.duration == Owner(calls, k).end[i]
    ensures Steady(calls, k + 1)
  {
    var d := Owner(calls, k);
    OwnerValid(calls, k);
    AcceptedInTime(d, calls[k], op, i);
    LeaseHolds(calls, k, i);
    LeaseGenuine(calls, k, i);
    assert ClockRemembered(calls, k, d) by { ClockHistory(calls, k); }
    GoodReadingSteady(calls, k, d);
  }

  // The work gate is open only while the lifetime runs, under a trusted clock and
  // without any malformed request so far.
  lemma AllowedInTime(calls: seq<Call>, n: nat, i: u64, incarnation: u64)
    requires n <= |calls| && DlAllows(Owner(calls, n), i, incarnation)
    ensures var lease := LeaseAt(calls, n, i);
            lease.Lease? && lease.incarnation == incarnation && Owner(calls, n).lastTick < lease.tick + lease.duration
    ensures Steady(calls, n)
    ensures forall k | 0 <= k < n :: !IsMalformed(calls[k].requests)
  {
    hide DlStep;
    OwnerValid(calls, n);
    LeaseHolds(calls, n, i);
    assert Steady(calls, n) by {
      ClockHistory(calls, n);
      LongestSteadyIsLongest(calls, n, 0);
    }
    RequestHistory(calls, n);
  }
}

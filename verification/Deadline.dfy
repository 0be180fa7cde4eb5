// lib/deadline.c: nonrenewable lifetimes and a fail-closed clock over the
// reduction latch.

module Deadline {
  import opened Words
  import opened Lifecycle
  import opened LifecycleRuns
  import opened Reduction

  datatype Reading = Reading(tick: u64, ok: bool)

  datatype DlStatus = DlOk | DlFault | DlInvalidState

  datatype DeadlineRaw = Deadline(control: Control, lastTick: u64, clockFault: u64, end: seq<u64>)

  type Deadline = d: DeadlineRaw | |d.end| == SLOTS witness Deadline(FRESH, 0, 0, [0, 0])

  const START: Deadline := Deadline(FRESH, 0, 0, [0, 0])

  // The lifetime of slot i has run out at this tick.
  predicate Expired(end: seq<u64>, tick: u64, i: int)
    requires 0 <= i < |end|
  {
    end[i] != 0 && end[i] <= tick
  }

  predicate SlotTimed(d: Deadline, i: u64)
    requires i < SLOTS
  {
    && (d.control.life.slots[i].state == UNUSED <==> d.end[i] == 0)
    && (Expired(d.end, d.lastTick, i) ==> i in d.control.inhibited)
  }

  predicate DlValid(d: Deadline) {
    && RdValid(d.control) && d.clockFault <= 1
    && (d.clockFault == 1 ==> d.control.inhibited == ALL)
    && SlotTimed(d, 0) && SlotTimed(d, 1)
  }

  // A reading the clock cannot vouch for, or that runs backwards.
  predicate Suspect(d: Deadline, reading: Reading) {
    d.clockFault == 1 || !reading.ok || reading.tick < d.lastTick
  }

  // The reductions one observation asks the latch for.
  function Demands(d: Deadline, requests: Bits, reading: Reading): Bits {
    requests + if Suspect(d, reading) then ALL else set i: nat | i < SLOTS && Expired(d.end, reading.tick, i)
  }

  function DlPoll(d: Deadline, requests: Bits, reading: Reading): (r: (Deadline, DlStatus)) {
    if !DlValid(d) then (d, DlInvalidState)
    else
      var control := Poll(d.control, Demands(d, requests, reading)).0;
      var next := if Suspect(d, reading) then d.(control := control, clockFault := 1)
                  else d.(control := control, lastTick := reading.tick);
      (next, if next.clockFault == 1 || control.inputFault == 1 then DlFault else DlOk)
  }

  // Only a reservation carries a duration, and its end must fit in the tick range.
  predicate BadDuration(d: Deadline, op: u64, duration: u64) {
    if op == RESERVE then duration == 0 || d.lastTick + duration > U64_MAX else duration != 0
  }

  function DlApply(d: Deadline, requests: Bits, reading: Reading, x: Input, duration: u64): (Deadline, Result) {
    if !DlValid(d) then (d, Result(Invalid, 0))
    else
      var polled := DlPoll(d, requests, reading).0;
      if BadDuration(polled, x.event.op, duration) then (polled, Result(Invalid, 0))
      else
        var (control, result) := Apply(polled.control, {}, x);
        if result.status != Ok then (polled, result)
        else if x.event.op == RESERVE && x.event.slot < SLOTS then
          (polled.(control := control, end := polled.end[x.event.slot := polled.lastTick + duration]), result)
        else (polled.(control := control), result)
  }

  function DlStopMask(d: Deadline): Bits { if DlValid(d) then StopMask(d.control) else ALL }

  predicate DlAllows(d: Deadline, slot: u64, incarnation: u64) {
    DlValid(d) && RdAllows(d.control, slot, incarnation)
  }

  // ---------- one call ----------

  lemma DlPollValid(d: Deadline, requests: Bits, reading: Reading)
    requires DlValid(d)
    ensures var p := DlPoll(d, requests, reading);
            && DlValid(p.0) && p.1 != DlInvalidState && p.0.end == d.end
            && d.control.inhibited <= p.0.control.inhibited
  {
    PollValid(d.control, Demands(d, requests, reading));
  }

  lemma DlApplyValid(d: Deadline, requests: Bits, reading: Reading, x: Input, duration: u64)
    requires DlValid(d)
    ensures DlValid(DlApply(d, requests, reading, x, duration).0)
  {
    DlPollValid(d, requests, reading);
    var polled := DlPoll(d, requests, reading).0;
    QuietPoll(polled.control);
    ApplyValid(polled.control, {}, x);
    if !BadDuration(polled, x.event.op, duration) && Apply(polled.control, {}, x).1.status == Ok {
      SlotMoves(polled.control.life, x);
      StepFrame(polled.control.life, x);
    }
  }

  // ---------- the C code ----------

  class DeadlineOwner {
    var owner: Deadline

    constructor (initial: Deadline)
      ensures owner == initial
    {
      owner := initial;
    }

    method IsValid() returns (ok: bool)
      ensures ok <==> DlValid(owner)
    {
      var inner := new ReductionOwner(owner.control);
      var controlOk := inner.IsValid();
      if !controlOk || owner.clockFault > 1 || (owner.clockFault != 0 && owner.control.inhibited != ALL) {
        return false;
      }
      var i := 0;
      while i < SLOTS
        invariant 0 <= i <= SLOTS
        invariant forall k | 0 <= k < i :: SlotTimed(owner, k)
      {
        var unused := owner.control.life.slots[i].state == UNUSED;
        if unused != (owner.end[i] == 0) { return false; }
        if owner.end[i] != 0 && owner.lastTick >= owner.end[i] && i !in owner.control.inhibited { return false; }
        i := i + 1;
      }
      return true;
    }

    method PollOwner(requests: Bits, reading: Reading) returns (status: DlStatus)
      modifies this
      ensures (owner, status) == DlPoll(old(owner), requests, reading)
    {
      var ok := IsValid();
      if !ok { return DlInvalidState; }
      var next := owner;
      var wanted := requests;
      if !reading.ok || reading.tick < next.lastTick { next := next.(clockFault := 1); }
      if next.clockFault != 0 {
        wanted := wanted + ALL;
      } else {
        next := next.(lastTick := reading.tick);
        var i := 0;
        while i < SLOTS
          invariant 0 <= i <= SLOTS
          invariant wanted == requests + set k: nat | k < i && Expired(owner.end, reading.tick, k)
        {
          if next.end[i] != 0 && reading.tick >= next.end[i] { wanted := wanted + {i}; }
          i := i + 1;
        }
      }
      assert wanted == Demands(owner, requests, reading);
      PollValid(next.control, wanted);
      var inner := new ReductionOwner(next.control);
      var polled := inner.PollOwner(wanted);
      if polled == InvalidState { return DlInvalidState; }
      next := next.(control := inner.control);
      owner := next;
      return if next.clockFault != 0 || next.control.inputFault != 0 then DlFault else DlOk;
    }

    method ApplyOwner(requests: Bits, reading: Reading, actor: Actor, e: Event, auditOk: bool, duration: u64)
      returns (r: Result)
      modifies this
      ensures (owner, r) == DlApply(old(owner), requests, reading, Input(actor, e, auditOk), duration)
    {
      if DlValid(owner) { DlPollValid(owner, requests, reading); }
      var status := PollOwner(requests, reading);
      if status == DlInvalidState { return Result(Invalid, 0); }
      if if e.op == RESERVE then duration == 0 || duration > U64_MAX - owner.lastTick else duration != 0 {
        return Result(Invalid, 0);
      }
      var next := owner;
      var inner := new ReductionOwner(next.control);
      r := inner.ApplyOwner({}, actor, e, auditOk);
      next := next.(control := inner.control);
      if r.status == Ok {
        if e.op == RESERVE { next := next.(end := next.end[e.slot := next.lastTick + duration]); }
        owner := next;
      }
    }

    method StopMaskOwner() returns (mask: Bits)
      ensures mask == DlStopMask(owner)
    {
      var ok := IsValid();
      if !ok { return ALL; }
      var inner := new ReductionOwner(owner.control);
      mask := inner.StopMaskOwner();
    }
  }
}

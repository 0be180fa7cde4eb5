// lib/reduction.c: sticky inhibit bits over the lifecycle, sampled from an
// atomically OR-ed mailbox word before every event.

module Reduction {
  import opened Words
  import opened Lifecycle

  // A 64-bit mask is the set of its one bits, so that OR is union. Nothing here
  // depends on the width. Bit i permanently inhibits slot i; every other bit is
  // malformed input.
  type Bits = set<nat>

  const ALL: Bits := {0, 1}

  datatype PollStatus = PollOk | Malformed | InvalidState

  datatype Control = Control(life: Life, inhibited: Bits, inputFault: u64)

  const FRESH: Control := Control(ZERO, {}, 0)

  predicate RdValid(c: Control) {
    && Valid(c.life)
    && c.inhibited <= ALL && c.inputFault <= 1
    && (c.inputFault == 1 ==> c.inhibited == ALL)
    && (0 in c.inhibited ==> !c.life.slots[0].Live())
    && (1 in c.inhibited ==> !c.life.slots[1].Live())
  }

  predicate IsMalformed(sample: Bits) { !(sample <= ALL) }

  // A word with an unknown bit counts as a request against both slots.
  function Normal(sample: Bits): Bits { if IsMalformed(sample) then ALL else sample }

  // Closing a gate keeps the ticket, the incarnation and the confirmations.
  function Closed(s: Slot, inhibited: bool): Slot {
    if inhibited && s.Live() then s.(state := CLOSING) else s
  }

  function Latched(life: Life, bits: Bits): Life {
    Life(life.last, [Closed(life.slots[0], 0 in bits), Closed(life.slots[1], 1 in bits)])
  }

  function Poll(c: Control, sample: Bits): (Control, PollStatus) {
    if !RdValid(c) then (c, InvalidState)
    else
      var bits := c.inhibited + Normal(sample);
      (Control(Latched(c.life, bits), bits, if IsMalformed(sample) then 1 else c.inputFault),
       if IsMalformed(sample) then Malformed else PollOk)
  }

  // An inhibited slot is refused selection and activation before the lifecycle
  // rules are consulted.
  predicate Refused(c: Control, e: Event) {
    e.slot < SLOTS && e.slot in c.inhibited && (e.op == RESERVE || e.op == ACTIVATE)
  }

  function Apply(c: Control, sample: Bits, x: Input): (Control, Result) {
    if !RdValid(c) then (c, Result(Invalid, 0))
    else
      var polled := Poll(c, sample).0;
      if Refused(polled, x.event) then (polled, Result(Denied, 0))
      else (polled.(life := Step(polled.life, x).0), Step(polled.life, x).1)
  }

  predicate Stopping(s: Slot) { s.state == CLOSING && s.stopped == 0 }

  function StopMask(c: Control): Bits {
    if !RdValid(c) then ALL
    else set i: nat | i < SLOTS && Stopping(c.life.slots[i])
  }

  predicate RdAllows(c: Control, slot: u64, incarnation: u64) {
    RdValid(c) && slot < SLOTS && slot !in c.inhibited && Allows(c.life, slot, incarnation)
  }

  // ---------- what the latch guarantees ----------

  function Containment(life: Life, i: u64): Input
    requires i < SLOTS
  {
    Input(Detector, Event(CONTAIN, i, life.slots[i].incarnation, 0), false)
  }

  // Closing a live slot is a containment the lifecycle rules accept.
  lemma ContainmentCloses(life: Life, i: u64)
    requires Valid(life) && i < SLOTS && life.slots[i].Live()
    ensures Check(life, Containment(life, i)) == Step(life, Containment(life, i)).1.status == Ok
    ensures Step(life, Containment(life, i)).0 == Life(life.last, life.slots[i := Closed(life.slots[i], true)])
    ensures Valid(Step(life, Containment(life, i)).0)
  {
    StepValid(life, Containment(life, i));
  }

  lemma LatchedValid(life: Life, bits: Bits)
    requires Valid(life)
    ensures Valid(Latched(life, bits))
    ensures forall i | 0 <= i < SLOTS :: i in bits ==> !Latched(life, bits).slots[i].Live()
  {
  }

  lemma PollValid(c: Control, sample: Bits)
    requires RdValid(c)
    ensures RdValid(Poll(c, sample).0) && Poll(c, sample).1 != InvalidState
    ensures c.inhibited <= Poll(c, sample).0.inhibited
  {
    LatchedValid(c.life, c.inhibited + Normal(sample));
  }

  lemma ApplyValid(c: Control, sample: Bits, x: Input)
    requires RdValid(c)
    ensures RdValid(Apply(c, sample, x).0)
    ensures Apply(c, sample, x).0.inhibited == Poll(c, sample).0.inhibited
  {
    PollValid(c, sample);
    var polled := Poll(c, sample).0;
    StepValid(polled.life, x);
    if !Refused(polled, x.event) && Check(polled.life, x) == Ok {
      assert NextSlot(polled.life, x).Live() ==> x.event.op == RESERVE || polled.life.slots[x.event.slot].Live();
    }
  }

  // An empty sample changes nothing, so a second poll before an event is harmless.
  lemma QuietPoll(c: Control)
    requires RdValid(c)
    ensures Poll(c, {}) == (c, PollOk)
  {
    assert c.inhibited + {} == c.inhibited;
    assert Latched(c.life, c.inhibited) == c.life;
  }

  lemma NormalUnion(bits: Bits, s1: Bits, s2: Bits)
    requires bits <= ALL
    ensures (bits + Normal(s1)) + Normal(s2) == bits + Normal(s1 + s2)
    ensures IsMalformed(s1 + s2) <==> IsMalformed(s1) || IsMalformed(s2)
    ensures forall i | 0 <= i < SLOTS :: i in bits + Normal(s1) ==> i in bits + Normal(s1 + s2)
  {
  }

  lemma LatchTwice(life: Life, few: Bits, many: Bits)
    requires forall i | 0 <= i < SLOTS :: i in few ==> i in many
    ensures Latched(Latched(life, few), many) == Latched(life, many)
  {
  }

  // Polls coalesce: two samples in a row leave the state that their union leaves.
  lemma PollsCoalesce(c: Control, s1: Bits, s2: Bits)
    ensures Poll(Poll(c, s1).0, s2).0 == Poll(c, s1 + s2).0
  {
    if RdValid(c) {
      PollValid(c, s1);
      NormalUnion(c.inhibited, s1, s2);
      LatchTwice(c.life, c.inhibited + Normal(s1), c.inhibited + Normal(s1 + s2));
    }
  }

  lemma PollsCommute(c: Control, s1: Bits, s2: Bits)
    ensures Poll(Poll(c, s1).0, s2).0 == Poll(Poll(c, s2).0, s1).0
    ensures Poll(Poll(c, s1).0, s1).0 == Poll(c, s1).0
  {
    PollsCoalesce(c, s1, s2);
    PollsCoalesce(c, s2, s1);
    PollsCoalesce(c, s1, s1);
    assert s1 + s2 == s2 + s1 && s1 + s1 == s1;
  }

  // ---------- the mailbox ----------

  // The interleavings of any number of publishers with the single owner: each
  // action is one atomic access to the word, followed by the owner's own work.
  datatype Action = Publish(requests: Bits) | Observe | Submit(x: Input)

  datatype World = World(mailbox: Bits, control: Control)

  // tcs_rd_publish accepts only known bits.
  function Posted(mailbox: Bits, requests: Bits): Bits {
    if IsMalformed(requests) then mailbox else mailbox + requests
  }

  function Act(w: World, a: Action): World {
    match a
    case Publish(requests) => w.(mailbox := Posted(w.mailbox, requests))
    case Observe => w.(control := Poll(w.control, w.mailbox).0)
    case Submit(x) => w.(control := Apply(w.control, w.mailbox, x).0)
  }

  function Play(acts: seq<Action>, n: nat): World
    requires n <= |acts|
  {
    if n == 0 then World({}, FRESH) else Act(Play(acts, n - 1), acts[n - 1])
  }

  // The union of everything successfully published so far.
  function Published(acts: seq<Action>, n: nat): Bits
    requires n <= |acts|
  {
    if n == 0 then {}
    else Published(acts, n - 1)
         + (if acts[n - 1].Publish? && !IsMalformed(acts[n - 1].requests) then acts[n - 1].requests else {})
  }

  // No input fault; the owner has latched nothing that was not published.
  predicate Latches(w: World) {
    RdValid(w.control) && w.control.inputFault == 0 && w.mailbox <= ALL && w.control.inhibited <= w.mailbox
  }

  lemma ActLatches(w: World, a: Action)
    requires Latches(w)
    ensures Latches(Act(w, a)) && (!a.Publish? ==> Act(w, a).control.inhibited == w.mailbox == Act(w, a).mailbox)
  {
    hide Valid, Latched, Step;
    PollValid(w.control, w.mailbox);
    if a.Submit? { ApplyValid(w.control, w.mailbox, a.x); }
  }

  // The mailbox never loses a request, the owner never runs ahead of it, and
  // right after an observation the owner has latched exactly what was published.
  lemma {:induction false} MailboxFaithful(acts: seq<Action>, n: nat)
    requires n <= |acts|
    ensures var w := Play(acts, n);
            && Latches(w) && w.mailbox == Published(acts, n)
            && (0 < n && !acts[n - 1].Publish? ==> w.control.inhibited == Published(acts, n))
  {
    hide Poll, Apply;
    if n > 0 {
      MailboxFaithful(acts, n - 1);
      ActLatches(Play(acts, n - 1), acts[n - 1]);
    }
  }

  // ---------- the C code ----------

  // The shared cell; each method is one atomic access.
  class Mailbox {
    var requests: Bits

    constructor ()
      ensures requests == {}
    {
      requests := {};
    }

    method Publish(bits: Bits) returns (ok: bool)
      modifies this
      ensures requests == Posted(old(requests), bits)
      ensures ok <==> bits <= ALL
    {
      if !(bits <= ALL) { return false; }
      requests := requests + bits;
      return true;
    }

    method Sample() returns (word: Bits)
      ensures word == requests
    {
      word := requests;
    }
  }

  class ReductionOwner {
    var control: Control

    constructor (initial: Control)
      ensures control == initial
    {
      control := initial;
    }

    method IsValid() returns (ok: bool)
      ensures ok <==> RdValid(control)
    {
      var inner := new LifecycleOwner(control.life);
      var lifeOk := inner.IsValid();
      if !lifeOk || !(control.inhibited <= ALL) || control.inputFault > 1
        || (control.inputFault != 0 && control.inhibited != ALL)
      {
        return false;
      }
      var i := 0;
      while i < SLOTS
        invariant 0 <= i <= SLOTS
        invariant forall k | 0 <= k < i :: k in control.inhibited ==> !control.life.slots[k].Live()
      {
        var phase := control.life.slots[i].state;
        if i in control.inhibited && STARTING <= phase && phase <= ACTIVE { return false; }
        i := i + 1;
      }
      return true;
    }

    method PollOwner(sample: Bits) returns (status: PollStatus)
      modifies this
      ensures (control, status) == Poll(old(control), sample)
    {
      hide Step, Valid;
      var ok := IsValid();
      if !ok { return InvalidState; }
      var next := control;
      var malformed := !(sample <= ALL);
      next := next.(inhibited := next.inhibited + (if malformed then ALL else sample));
      if malformed { next := next.(inputFault := 1); }
      var i := 0;
      while i < SLOTS
        invariant 0 <= i <= SLOTS && control == old(control)
        invariant next.inhibited == control.inhibited + Normal(sample)
        invariant next.inputFault == if malformed then 1 else control.inputFault
        invariant next.life.last == control.life.last && Valid(next.life)
        invariant forall k | 0 <= k < SLOTS :: next.life.slots[k] ==
                    if k < i then Closed(control.life.slots[k], k in next.inhibited) else control.life.slots[k]
      {
        var slot := next.life.slots[i];
        if i in next.inhibited && slot.state >= STARTING && slot.state <= ACTIVE {
          var inner := new LifecycleOwner(next.life);
          ContainmentCloses(next.life, i);
          var r := inner.Apply(Detector, Event(CONTAIN, i, slot.incarnation, 0), false);
          if r.status != Ok { return InvalidState; }
          next := next.(life := inner.life);
        }
        i := i + 1;
      }
      assert next.life == Latched(control.life, next.inhibited);
      control := next;
      return if malformed then Malformed else PollOk;
    }

    method ApplyOwner(sample: Bits, actor: Actor, e: Event, auditOk: bool) returns (r: Result)
      modifies this
      ensures (control, r) == Apply(old(control), sample, Input(actor, e, auditOk))
    {
      if RdValid(control) { PollValid(control, sample); }
      var status := PollOwner(sample);
      if status == InvalidState { return Result(Invalid, 0); }
      if e.slot < SLOTS && e.slot in control.inhibited && (e.op == RESERVE || e.op == ACTIVATE) {
        return Result(Denied, 0);
      }
      var inner := new LifecycleOwner(control.life);
      r := inner.Apply(actor, e, auditOk);
      control := control.(life := inner.life);
    }

    method StopMaskOwner() returns (mask: Bits)
      ensures mask == StopMask(control)
    {
      var ok := IsValid();
      if !ok { return ALL; }
      mask := {};
      var i := 0;
      while i < SLOTS
        invariant 0 <= i <= SLOTS
        invariant mask == set k: nat | k < i && Stopping(control.life.slots[k])
      {
        if control.life.slots[i].state == CLOSING && control.life.slots[i].stopped == 0 { mask := mask + {i}; }
        i := i + 1;
      }
    }
  }
}

// tests/lifecycle/supervisor.c: the gate owner. It runs the lifecycle table and
// orders the kernel's stop and resume of the two worker threads around it. The
// field `running` is not in the program: it says which worker the kernel would
// let run.

module LifecycleSupervisor {
  import opened Words
  import opened Lifecycle
  import opened LifecycleRuns
  import opened Messages

  const LT_CONTROL: u64 := 0x710
  const LT_STATUS: u64 := 0x711
  const LT_READY: u64 := 0x712
  const LT_EVENT: u64 := 0x713
  const LT_VIEW: u64 := 0x714
  const LT_RESULT: u64 := 0x780
  const LT_SNAPSHOT: u64 := 0x781
  const LT_SLOT: u64 := 0x782
  const FAILURE: u64 := 99
  const VM_FAULT: u64 := 6
  const FAULT_ADDRESS: u64 := 0x0dead000

  function Word(status: Status): u64 {
    match status
    case Ok => 0
    case Invalid => 1
    case Denied => 2
    case Stale => 3
    case BadState => 4
    case AuditRequired => 5
    case Exhausted => 6
  }

  function Reply(status: u64, value: u64): Message { Message(LT_RESULT, [status, value]) }

  function Answer(r: Result): Message { Reply(Word(r.status), r.value) }

  function SlotWords(s: Slot): seq<u64> { [s.state, s.incarnation, s.issued, s.pending, s.stopped, s.drained] }

  datatype Sup = Sup(life: Life, ready: bool, failed: bool, faults: u64, ip: u64, address: u64, fsr: u64,
                     running: (bool, bool))

  function Runs(sv: Sup, slot: u64): bool
    requires slot < SLOTS
  {
    if slot == 0 then sv.running.0 else sv.running.1
  }

  function Halted(running: (bool, bool), slot: u64, run: bool): (bool, bool)
    requires slot < SLOTS
  {
    if slot == 0 then (run, running.1) else (running.0, run)
  }

  function Failed(sv: Sup): Sup { sv.(failed := true, running := (false, false)) }

  // Containment at once closes the gate, stops the thread and records the stop.
  function Contained(sv: Sup, slot: u64, actor: Actor): (Sup, Result)
    requires slot < SLOTS
  {
    var s := sv.life.slots[slot];
    var (closed, r) := Step(sv.life, Input(actor, Event(CONTAIN, slot, s.incarnation, 0), false));
    if r.status != Ok then (sv, r)
    else
      var (stopped, r') := Step(closed, Input(Actor.Supervisor, Event(STOPPED, slot, s.incarnation, s.issued), false));
      var next := sv.(life := stopped, running := Halted(sv.running, slot, false));
      (if r'.status == Ok then next else Failed(next), r')
  }

  // Administrator control. A successful reservation resumes the worker.
  function Controlled(sv: Sup, op: u64, slot: u64): (Sup, Message) {
    if slot >= SLOTS || (op != RESERVE && op != ACTIVATE && op != CONTAIN) then (sv, Answer(Result(Invalid, 0)))
    else if op == CONTAIN then
      var (next, r) := Contained(sv, slot, Admin);
      (next, Answer(r))
    else
      var incarnation := if op == RESERVE then 0 else sv.life.slots[slot].incarnation;
      var (life, r) := Step(sv.life, Input(Admin, Event(op, slot, incarnation, 0), true));
      var running := if r.status == Ok && op == RESERVE then Halted(sv.running, slot, true) else sv.running;
      (sv.(life := life, running := running), Answer(r))
  }

  function Started(sv: Sup, slot: u64): (Sup, Message)
    requires slot < SLOTS
  {
    var (life, r) := Step(sv.life, Input(Actor.Supervisor, Event(STARTED, slot, sv.life.slots[slot].incarnation, 0), false));
    (sv.(life := life), Answer(r))
  }

  // Broker events. The runtime is stricter than the table: no drain before stop.
  function Brokered(sv: Sup, e: Event): (Sup, Message) {
    if e.op != BEGIN && e.op != COMPLETE && e.op != DRAINED then (sv, Answer(Result(Denied, 0)))
    else if e.slot >= SLOTS then (sv, Answer(Result(Invalid, 0)))
    else if e.op == DRAINED && sv.life.slots[e.slot].stopped == 0 then (sv, Answer(Result(BadState, 0)))
    else
      var (life, r) := Step(sv.life, Input(Actor.Broker, e, false));
      (sv.(life := life), Answer(r))
  }

  function Snapshot(sv: Sup): Message {
    Message(LT_SNAPSHOT,
            [if sv.failed then 1 else 0, sv.faults, sv.life.last]
            + SlotWords(sv.life.slots[0]) + SlotWords(sv.life.slots[1]) + [sv.ip, sv.address, sv.fsr])
  }

  // Channel 0 is the controller's, channel 1 the broker's.
  function Served(sv: Sup, ch: u64, m: Message): (Sup, Message) {
    if !sv.ready || sv.failed || ch > 1 then (sv, Reply(FAILURE, 0))
    else if ch == 0 && Is(m, LT_STATUS, 0) then (sv, Snapshot(sv))
    else if ch == 0 && Is(m, LT_CONTROL, 2) then Controlled(sv, m.words[0], m.words[1])
    else if ch == 1 && (Is(m, LT_READY, 1) || Is(m, LT_VIEW, 1)) then
      if m.words[0] >= SLOTS then (sv, Answer(Result(Invalid, 0)))
      else if m.tag == LT_VIEW then (sv, Message(LT_SLOT, SlotWords(sv.life.slots[m.words[0]])))
      else Started(sv, m.words[0])
    else if ch == 1 && Is(m, LT_EVENT, 4) then Brokered(sv, Event(m.words[0], m.words[1], m.words[2], m.words[3]))
    else (sv, Answer(Result(Invalid, 0)))
  }

  // Bits 63..32 clear, class 0x24 in 31..26, bit 25 set, 10..7 clear, bit 6 (a
  // write) set, and a translation fault (4 to 7) in 5..0.
  predicate SyndromeFits(fsr: u64) {
    && fsr / 0x1_0000_0000 == 0 && (fsr / 0x400_0000) % 64 == 0x24 && (fsr / 0x200_0000) % 2 == 1
    && (fsr / 0x80) % 16 == 0 && (fsr / 0x40) % 2 == 1 && 4 <= fsr % 64 <= 7
  }

  // The one fault the scenario provokes: worker B writing to the fixed unmapped
  // address from its own code, while it holds its first ticket.
  predicate Expected(sv: Sup, child: u64, m: Message) {
    && sv.ready && !sv.failed && sv.faults == 0 && child == 2
    && Is(m, VM_FAULT, 4)
    && 0x200000 <= m.words[0] < 0x300000 && m.words[0] % 4 == 0
    && m.words[1] == FAULT_ADDRESS && m.words[2] == 0
    && SyndromeFits(m.words[3])
    && sv.life.slots[1].state == ACTIVE && sv.life.slots[1].pending == 1
  }

  function Faulted(sv: Sup, child: u64, m: Message): Sup {
    if !Expected(sv, child, m) then Failed(sv)
    else
      var noted := sv.(ip := m.words[0], address := m.words[1], fsr := m.words[3], faults := 1);
      var (next, r) := Contained(noted, 1, Actor.Supervisor);
      if r.status == Ok then next else Failed(next)
  }

  // Anything but the broker that reaches the supervisor.
  datatype Nudge = Call(ch: u64, m: Message) | Fault(child: u64, m: Message)

  function Nudged(sv: Sup, n: Nudge): Sup {
    match n
    case Call(ch, m) => if ch == 1 then sv else Served(sv, ch, m).0
    case Fault(child, m) => Faulted(sv, child, m)
  }

  function Disturbed(sv: Sup, window: seq<Nudge>): Sup
    decreases |window|
  {
    if window == [] then sv else Disturbed(Nudged(sv, window[0]), window[1..])
  }

  // ---------- the physical stop invariant ----------

  const BOOTED := Sup(ZERO, true, false, 0, 0, 0, 0, (false, false))

  // At rest a worker runs exactly while its slot is starting, ready or active,
  // and none runs after a failure; a closing slot has been physically stopped.
  predicate Sound(sv: Sup) {
    && sv.ready && Valid(sv.life)
    && (sv.failed ==> sv.running == (false, false))
    && (!sv.failed ==> sv.running == (sv.life.slots[0].Live(), sv.life.slots[1].Live()))
    && (sv.life.slots[0].state == CLOSING ==> sv.life.slots[0].stopped == 1)
    && (sv.life.slots[1].state == CLOSING ==> sv.life.slots[1].stopped == 1)
  }

  lemma ContainAccepted(life: Life, slot: u64, actor: Actor)
    requires Valid(life) && slot < SLOTS && (actor == Admin || actor == Actor.Supervisor)
    ensures var s := life.slots[slot];
            Step(life, Input(actor, Event(CONTAIN, slot, s.incarnation, 0), false)) ==
              if s.Live() then (Life(life.last, life.slots[slot := s.(state := CLOSING)]), Result(Ok, s.incarnation))
              else (life, Result(if s.state == UNUSED then Invalid else BadState, 0))
  {
    assert SlotValid(life.slots[slot], life.last);
  }

  lemma StopAccepted(life: Life, slot: u64)
    requires Valid(life) && slot < SLOTS && life.slots[slot].state == CLOSING && life.slots[slot].stopped == 0
    ensures var s := life.slots[slot];
            var t := s.(stopped := 1, state := if s.drained == 1 then RETIRED else CLOSING);
            Step(life, Input(Actor.Supervisor, Event(STOPPED, slot, s.incarnation, s.issued), false))
            == (Life(life.last, life.slots[slot := t]), Result(Ok, s.incarnation))
  {
    assert SlotValid(life.slots[slot], life.last);
  }

  // Containing a live slot always succeeds, so the stop is never left unrecorded
  // and the failure branch behind it is never taken.
  lemma ContainedExactly(sv: Sup, slot: u64, actor: Actor)
    requires Valid(sv.life) && slot < SLOTS && (actor == Admin || actor == Actor.Supervisor)
    ensures var s := sv.life.slots[slot];
            var status := if s.state == UNUSED then Invalid else if s.Live() then Ok else BadState;
            Contained(sv, slot, actor) ==
              if s.Live() then
                (sv.(life := Life(sv.life.last, sv.life.slots[slot := s.(state := CLOSING, stopped := 1)]),
                     running := Halted(sv.running, slot, false)), Result(Ok, s.incarnation))
              else (sv, Result(status, 0))
    ensures Valid(Contained(sv, slot, actor).0.life)
  {
    hide Step;
    var s := sv.life.slots[slot];
    assert SlotValid(s, sv.life.last);
    var x := Input(actor, Event(CONTAIN, slot, s.incarnation, 0), false);
    ContainAccepted(sv.life, slot, actor);
    StepValid(sv.life, x);
    if s.Live() {
      var closed := Step(sv.life, x).0;
      StopAccepted(closed, slot);
      StepValid(closed, Input(Actor.Supervisor, Event(STOPPED, slot, s.incarnation, s.issued), false));
      var halted := s.(state := CLOSING, stopped := 1);
      assert closed.slots[slot := halted] == sv.life.slots[slot := halted];
    }
  }

  // An accepted event other than a reservation never opens a closed gate.
  lemma StepLives(life: Life, x: Input)
    requires Valid(life) && x.event.op != CONTAIN
    ensures var next := Step(life, x).0;
            && Valid(next)
            && (forall i | 0 <= i < SLOTS :: next.slots[i].Live() <==>
                  life.slots[i].Live() || (Check(life, x) == Ok && x.event.op == RESERVE && x.event.slot == i))
            && (forall i | 0 <= i < SLOTS :: next.slots[i].state == CLOSING ==>
                  life.slots[i].state == CLOSING && (life.slots[i].stopped == 1 ==> next.slots[i].stopped == 1))
  {
    hide Check, NextSlot;
    StepValid(life, x);
    StepFrame(life, x);
    if Check(life, x) == Ok { SlotMoves(life, x); }
  }

  lemma ServedSound(sv: Sup, ch: u64, m: Message)
    requires Sound(sv)
    ensures Sound(Served(sv, ch, m).0)
  {
    hide Step, Valid;
    if !sv.failed && ch == 0 && Is(m, LT_CONTROL, 2) && m.words[1] < SLOTS {
      var op, slot := m.words[0], m.words[1];
      if op == CONTAIN {
        ContainedExactly(sv, slot, Admin);
      } else {
        var x := Input(Admin, Event(op, slot, if op == RESERVE then 0 else sv.life.slots[slot].incarnation, 0), true);
        StepFrame(sv.life, x);
        StepLives(sv.life, x);
      }
    } else if !sv.failed && ch == 1 && Is(m, LT_READY, 1) && m.words[0] < SLOTS {
      var x := Input(Actor.Supervisor, Event(STARTED, m.words[0], sv.life.slots[m.words[0]].incarnation, 0), false);
      StepLives(sv.life, x);
    } else if !sv.failed && ch == 1 && Is(m, LT_EVENT, 4) && m.words[0] != CONTAIN {
      StepLives(sv.life, Input(Actor.Broker, Event(m.words[0], m.words[1], m.words[2], m.words[3]), false));
    }
  }

  lemma NudgedSound(sv: Sup, n: Nudge)
    requires Sound(sv)
    ensures Sound(Nudged(sv, n))
  {
    if n.Call? {
      ServedSound(sv, n.ch, n.m);
    } else if Expected(sv, n.child, n.m) {
      var noted := sv.(ip := n.m.words[0], address := n.m.words[1], fsr := n.m.words[3], faults := 1);
      ContainedExactly(noted, 1, Actor.Supervisor);
    }
  }

  lemma {:induction false} DisturbedSound(sv: Sup, window: seq<Nudge>)
    requires Sound(sv)
    ensures Sound(Disturbed(sv, window))
    decreases |window|
  {
    hide Nudged, Sound;
    if window != [] {
      NudgedSound(sv, window[0]);
      DisturbedSound(Nudged(sv, window[0]), window[1..]);
    }
  }

  // ---------- the C code ----------

  class GateOwner {
    var life: LifecycleOwner
    var ready: bool
    var failed: bool
    var faults: u64
    var ip: u64
    var address: u64
    var fsr: u64
    ghost var running: (bool, bool)

    // The static state before `init`; both threads may be runnable.
    constructor ()
      ensures fresh(life) && life.life == ZERO && !ready && !failed
      ensures faults == ip == address == fsr == 0
    {
      life := new LifecycleOwner(ZERO);
      ready, failed, faults, ip, address, fsr := false, false, 0, 0, 0, 0;
      running := (true, true);
    }

    ghost function View(): Sup
      reads this, life
    {
      Sup(life.life, ready, failed, faults, ip, address, fsr, running)
    }

    // microkit_pd_stop and microkit_pd_resume: they return only on success.
    method PdStop(child: u64)
      requires 1 <= child <= SLOTS
      modifies this`running
      ensures running == Halted(old(running), child - 1, false)
    {
      running := Halted(running, child - 1, false);
    }

    method PdResume(child: u64)
      requires 1 <= child <= SLOTS
      modifies this`running
      ensures running == Halted(old(running), child - 1, true)
    {
      running := Halted(running, child - 1, true);
    }

    method Fail()
      modifies this
      ensures life == old(life) && View() == Failed(old(View()))
    {
      failed := true;
      var i := 1;
      while i <= SLOTS
        invariant 1 <= i <= SLOTS + 1 && life == old(life) && failed
        invariant View() == old(View()).(failed := true, running := running)
        invariant (1 < i ==> !running.0) && (2 < i ==> !running.1)
      {
        PdStop(i);
        i := i + 1;
      }
    }

    method Init()
      modifies this
      ensures life == old(life)
      ensures View() == if old(ready) then Failed(old(View())) else old(View()).(ready := true, running := (false, false))
    {
      if ready {
        Fail();
        return;
      }
      PdStop(1);
      PdStop(2);
      ready := true;
    }

    method ApplyEvent(actor: Actor, op: u64, slot: u64, incarnation: u64, sequence: u64, audit: bool) returns (r: Result)
      modifies life
      ensures (life.life, r) == Step(old(life.life), Input(actor, Event(op, slot, incarnation, sequence), audit))
    {
      r := life.Apply(actor, Event(op, slot, incarnation, sequence), audit);
    }

    method Contain(slot: u64, actor: Actor) returns (r: Result)
      requires slot < SLOTS
      modifies this, life
      ensures life == old(life) && (View(), r) == Contained(old(View()), slot, actor)
    {
      var incarnation, sequence := life.life.slots[slot].incarnation, life.life.slots[slot].issued;
      r := ApplyEvent(actor, CONTAIN, slot, incarnation, 0, false);
      if r.status != Ok { return; }
      PdStop(slot + 1);
      r := ApplyEvent(Actor.Supervisor, STOPPED, slot, incarnation, sequence, false);
      if r.status != Ok { Fail(); }
    }

    method Protected(ch: u64, m: Message) returns (reply: Message)
      modifies this, life
      ensures life == old(life) && (View(), reply) == Served(old(View()), ch, m)
    {
      if !ready || failed || ch > 1 { return Reply(FAILURE, 0); }
      if ch == 0 && Is(m, LT_STATUS, 0) {
        var words := [if failed then 1 else 0, faults, life.life.last];
        words := words + SlotWords(life.life.slots[0]) + SlotWords(life.life.slots[1]);
        return Message(LT_SNAPSHOT, words + [ip, address, fsr]);
      }
      if ch == 0 && Is(m, LT_CONTROL, 2) {
        var op, slot := m.words[0], m.words[1];
        if slot >= SLOTS || (op != RESERVE && op != ACTIVATE && op != CONTAIN) { return Reply(Word(Invalid), 0); }
        var r: Result;
        if op == CONTAIN {
          r := Contain(slot, Admin);
        } else {
          r := ApplyEvent(Admin, op, slot, if op == RESERVE then 0 else life.life.slots[slot].incarnation, 0, true);
          if r.status == Ok && op == RESERVE { PdResume(slot + 1); }
        }
        return Reply(Word(r.status), r.value);
      }
      if ch == 1 && (Is(m, LT_READY, 1) || Is(m, LT_VIEW, 1)) {
        var slot := m.words[0];
        if slot >= SLOTS { return Reply(Word(Invalid), 0); }
        if m.tag == LT_VIEW { return Message(LT_SLOT, SlotWords(life.life.slots[slot])); }
        var r := ApplyEvent(Actor.Supervisor, STARTED, slot, life.life.slots[slot].incarnation, 0, false);
        return Reply(Word(r.status), r.value);
      }
      if ch == 1 && Is(m, LT_EVENT, 4) {
        var op, slot, incarnation, sequence := m.words[0], m.words[1], m.words[2], m.words[3];
        if op != BEGIN && op != COMPLETE && op != DRAINED { return Reply(Word(Denied), 0); }
        if slot >= SLOTS { return Reply(Word(Invalid), 0); }
        if op == DRAINED && life.life.slots[slot].stopped == 0 { return Reply(Word(BadState), 0); }
        var r := ApplyEvent(Actor.Broker, op, slot, incarnation, sequence, false);
        return Reply(Word(r.status), r.value);
      }
      return Reply(Word(Invalid), 0);
    }

    // The reply flag is always false: a faulted worker is never resumed.
    method HandleFault(child: u64, m: Message) returns (resume: bool)
      modifies this, life
      ensures life == old(life) && !resume && View() == Faulted(old(View()), child, m)
    {
      resume := false;
      if !Expected(Sup(life.life, ready, failed, faults, ip, address, fsr, (false, false)), child, m) {
        Fail();
      } else {
        ip, address, fsr, faults := m.words[0], m.words[1], m.words[3], 1;
        var r := Contain(1, Actor.Supervisor);
        if r.status != Ok { Fail(); }
      }
    }

    // Other callers reaching the supervisor while the broker waits.
    method Interfere(window: seq<Nudge>)
      modifies this, life
      ensures life == old(life) && View() == Disturbed(old(View()), window)
    {
      var k := 0;
      while k < |window|
        invariant k <= |window| && life == old(life)
        invariant Disturbed(View(), window[k..]) == Disturbed(old(View()), window)
      {
        match window[k] {
          case Call(ch, m) => if ch != 1 { var reply := Protected(ch, m); }
          case Fault(child, m) => var resume := HandleFault(child, m);
        }
        k := k + 1;
      }
    }
  }
}

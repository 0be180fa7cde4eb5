// What the gate owner and the broker answer to each request, and what a worker's
// whole life looks like from outside. Reply statuses are the numbers on the wire.

module BrokerOutcomes {
  import opened Words
  import opened Lifecycle
  import opened LifecycleOutcomes
  import opened LifecycleSupervisor
  import opened LifecycleBroker
  import opened Messages

  // ---------- the gate owner ----------

  predicate Running(sv: Sup) { Sound(sv) && !sv.failed }

  function WithSlot(sv: Sup, i: u64, s: Slot): Sup
    requires i < SLOTS
  {
    sv.(life := sv.life.(slots := sv.life.slots[i := s]))
  }

  // Worker i, and no other, is started or stopped.
  function Switched(running: (bool, bool), i: u64, run: bool): (bool, bool) {
    (if i == 0 then run else running.0, if i == 1 then run else running.1)
  }

  // Starting a worker takes the next incarnation and lets its thread run.
  lemma ReserveServed(sv: Sup, i: u64)
    requires Running(sv) && i < SLOTS
    ensures var s, inc := sv.life.slots[i], sv.life.last + 1;
            Served(sv, 0, Message(LT_CONTROL, [RESERVE, i])) ==
              if s.state != UNUSED || sv.life.slots[1 - i].Occupied() then (sv, Reply(4, 0))
              else if sv.life.last == U64_MAX then (sv, Reply(6, 0))
              else
                (sv.(life := Life(inc, sv.life.slots[i := Slot(STARTING, inc, 0, 0, 0, 0)]),
                     running := Switched(sv.running, i, true)), Reply(0, inc))
  {
    hide Step;
    ReserveOutcome(sv.life, i, true);
  }

  lemma ActivateServed(sv: Sup, i: u64)
    requires Running(sv) && i < SLOTS
    ensures var s := sv.life.slots[i];
            Served(sv, 0, Message(LT_CONTROL, [ACTIVATE, i])) ==
              if s.state == UNUSED then (sv, Reply(1, 0))
              else if s.state != READY then (sv, Reply(4, 0))
              else (WithSlot(sv, i, s.(state := ACTIVE)), Reply(0, s.incarnation))
  {
    hide Step;
    var s := sv.life.slots[i];
    assert SlotValid(s, sv.life.last);
    if s.state == UNUSED {
      UnnamedOutcome(sv.life, Input(Admin, Event(ACTIVATE, i, 0, 0), true));
    } else {
      ActivateOutcome(sv.life, i, true);
    }
  }

  // Containing a worker stops its thread and records the stop.
  lemma ContainServed(sv: Sup, i: u64)
    requires Running(sv) && i < SLOTS
    ensures var s := sv.life.slots[i];
            Served(sv, 0, Message(LT_CONTROL, [CONTAIN, i])) ==
              if s.state == UNUSED then (sv, Reply(1, 0))
              else if !(STARTING <= s.state <= ACTIVE) then (sv, Reply(4, 0))
              else
                (WithSlot(sv, i, s.(state := CLOSING, stopped := 1)).(running := Switched(sv.running, i, false)),
                 Reply(0, s.incarnation))
  {
    hide Step;
    ContainedExactly(sv, i, Admin);
  }

  // The status reply: the failure flag, the count of faults, the last incarnation,
  // the two slots and the registers of the fault.
  lemma StatusServed(sv: Sup)
    requires Running(sv)
    ensures var (next, reply) := Served(sv, 0, Message(LT_STATUS, []));
            && next == sv && reply.tag == LT_SNAPSHOT && |reply.words| == 18
            && reply.words[0] == 0 && reply.words[1] == sv.faults && reply.words[2] == sv.life.last
            && Slot(reply.words[3], reply.words[4], reply.words[5], reply.words[6], reply.words[7], reply.words[8])
               == sv.life.slots[0]
            && Slot(reply.words[9], reply.words[10], reply.words[11], reply.words[12], reply.words[13], reply.words[14])
               == sv.life.slots[1]
            && reply.words[15..] == [sv.ip, sv.address, sv.fsr]
  {
  }

  // The broker's view of a slot is that slot.
  lemma ViewServed(sv: Sup, i: u64)
    requires Running(sv) && i < SLOTS
    ensures var (next, reply) := Served(sv, 1, Message(LT_VIEW, [i]));
            && next == sv && reply.tag == LT_SLOT && |reply.words| == 6
            && sv.life.slots[i] ==
                 Slot(reply.words[0], reply.words[1], reply.words[2], reply.words[3], reply.words[4], reply.words[5])
  {
  }

  // The broker's events meet the lifecycle rules, except that nothing is drained
  // before it is stopped.
  lemma EventServed(sv: Sup, e: Event)
    requires Running(sv)
    ensures var (life, r) := Step(sv.life, Input(Actor.Broker, e, false));
            Served(sv, 1, Message(LT_EVENT, [e.op, e.slot, e.incarnation, e.sequence])) ==
              if e.op != BEGIN && e.op != COMPLETE && e.op != DRAINED then (sv, Reply(2, 0))
              else if e.slot >= SLOTS then (sv, Reply(1, 0))
              else if e.op == DRAINED && sv.life.slots[e.slot].stopped == 0 then (sv, Reply(4, 0))
              else (sv.(life := life), Answer(r))
  {
    hide Step;
  }

  // Each channel has its own requests; any other message is invalid, and nothing is
  // served before the start or after a failure.
  lemma OtherServed(sv: Sup, ch: u64, m: Message)
    ensures !sv.ready || sv.failed || ch > 1 ==> Served(sv, ch, m) == (sv, Reply(99, 0))
    ensures Running(sv) && ch == 0 && !Is(m, LT_STATUS, 0) && !Is(m, LT_CONTROL, 2) ==> Served(sv, ch, m) == (sv, Reply(1, 0))
    ensures Running(sv) && ch == 1 && !Is(m, LT_READY, 1) && !Is(m, LT_VIEW, 1) && !Is(m, LT_EVENT, 4) ==>
              Served(sv, ch, m) == (sv, Reply(1, 0))
  {
  }

  // ---------- faults ----------

  predicate Syndrome(fsr: u64, k: nat, level: nat) {
    k < 0x4000 && level < 4 && fsr == 0x9200_0040 + 0x800 * k + 4 + level
  }

  lemma HighParts(fsr: u64)
    requires fsr / 0x1_0000_0000 == 0 && (fsr / 0x400_0000) % 64 == 0x24 && (fsr / 0x200_0000) % 2 == 1
    ensures 0x9200_0000 <= fsr < 0x9400_0000
  {
    assert fsr / 0x400_0000 < 64;
    assert fsr / 0x400_0000 == 0x24;
    assert 0x9000_0000 <= fsr < 0x9400_0000;
  }

  lemma Half(x: nat, q: nat)
    requires q == x / 2 && x % 2 == 1
    ensures x == 2 * q + 1
  {
  }

  lemma Sixteenth(x: nat, q: nat)
    requires q == x / 16 && x % 16 == 0
    ensures x == 16 * q
  {
  }

  lemma Nested(x: nat)
    ensures x / 0x80 == (x / 0x40) / 2 && x / 0x800 == (x / 0x80) / 16
  {
  }

  lemma LowParts(fsr: nat)
    requires (fsr / 0x80) % 16 == 0 && (fsr / 0x40) % 2 == 1
    ensures fsr == 0x800 * (fsr / 0x800) + 0x40 + fsr % 64
  {
    Nested(fsr);
    Half(fsr / 0x40, fsr / 0x80);
    Sixteenth(fsr / 0x80, fsr / 0x800);
  }

  lemma SyndromeParts(fsr: u64)
    requires SyndromeFits(fsr)
    ensures Syndrome(fsr, fsr / 0x800 - 0x12_4000, fsr % 64 - 4)
  {
    HighParts(fsr);
    LowParts(fsr);
  }

  lemma HighBits(fsr: u64)
    requires 0x9200_0000 <= fsr < 0x9400_0000
    ensures fsr / 0x1_0000_0000 == 0 && (fsr / 0x400_0000) % 64 == 0x24 && (fsr / 0x200_0000) % 2 == 1
  {
    assert fsr / 0x400_0000 == 0x24;
    assert fsr / 0x200_0000 == 0x49;
  }

  lemma By128(x: nat, q: nat, r: nat)
    requires x == 0x80 * q + r && r < 0x80
    ensures x / 0x80 == q
  {
  }

  lemma By64(x: nat, q: nat, r: nat)
    requires x == 0x40 * q + r && r < 0x40
    ensures x / 0x40 == q && x % 0x40 == r
  {
  }

  lemma Whole16(x: nat, q: nat)
    requires x == 16 * q
    ensures x % 16 == 0
  {
  }

  lemma Odd(x: nat, q: nat)
    requires x == 2 * q + 1
    ensures x % 2 == 1
  {
  }

  lemma LowBits(fsr: nat, t: nat, low: nat)
    requires fsr == 0x800 * t + low && 0x44 <= low < 0x48
    ensures (fsr / 0x80) % 16 == 0 && (fsr / 0x40) % 2 == 1 && fsr % 64 == low - 0x40
  {
    By128(fsr, 16 * t, low);
    By64(fsr, 32 * t + 1, low - 0x40);
    Whole16(fsr / 0x80, t);
    Odd(fsr / 0x40, 16 * t);
  }

  lemma SyndromeMade(fsr: u64, k: nat, level: nat)
    requires Syndrome(fsr, k, level)
    ensures SyndromeFits(fsr)
  {
    HighBits(fsr);
    LowBits(fsr, 0x12_4000 + k, 0x44 + level);
  }

  // The accepted syndromes are a write's translation fault at any of the four
  // levels, with any of the fourteen bits from 11 to 24.
  lemma SyndromeExact(fsr: u64)
    ensures SyndromeFits(fsr) <==> exists k: nat, level: nat :: Syndrome(fsr, k, level)
  {
    if SyndromeFits(fsr) {
      SyndromeParts(fsr);
      assert Syndrome(fsr, fsr / 0x800 - 0x12_4000, fsr % 64 - 4);
    }
    if k: nat, level: nat :| Syndrome(fsr, k, level) { SyndromeMade(fsr, k, level); }
  }

  // The one fault the fixture provokes: a write by worker B to the fixed address.
  ghost predicate Provoked(child: u64, m: Message) {
    && child == 2 && m.tag == VM_FAULT && |m.words| == 4
    && m.words[0] % 4 == 0 && 0x20_0000 <= m.words[0] <= 0x2f_fffc && m.words[1] == 0x0dea_d000 && m.words[2] == 0
    && exists k: nat, level: nat :: Syndrome(m.words[3], k, level)
  }

  // The first provoked fault while worker B holds its first ticket contains it,
  // stops it and records the registers; any other fault stops everything for good.
  lemma FaultOutcome(sv: Sup, child: u64, m: Message)
    requires Running(sv)
    ensures var s := sv.life.slots[1];
            Faulted(sv, child, m) ==
              if sv.faults == 0 && Provoked(child, m) && s.state == ACTIVE && s.pending == 1 then
                WithSlot(sv, 1, s.(state := CLOSING, stopped := 1)).(
                  running := (sv.running.0, false), faults := 1, ip := m.words[0], address := m.words[1], fsr := m.words[3])
              else sv.(failed := true, running := (false, false))
  {
    hide SyndromeFits, Syndrome;
    if Is(m, VM_FAULT, 4) {
      SyndromeExact(m.words[3]);
      var noted := sv.(ip := m.words[0], address := m.words[1], fsr := m.words[3], faults := 1);
      ContainedExactly(noted, 1, Actor.Supervisor);
    }
  }

  // ---------- the broker ----------

  // Both sides are in step and neither has failed.
  predicate Working(br: Br, sv: Sup) { Agree(System(br, sv)) && !br.failed && !sv.failed }

  predicate Mirrored(br: Br, sv: Sup, i: u64)
    requires i < SLOTS
  {
    var s := sv.life.slots[i];
    && Valid(sv.life) && sv.ready && br.ready && br.pending[i] == s.pending
    && (br.inc[i] != 0 ==> br.inc[i] == s.incarnation && s.state != UNUSED)
  }

  lemma AgreeMirrored(br: Br, sv: Sup, i: u64)
    requires Working(br, sv) && i < SLOTS
    ensures Mirrored(br, sv, i)
  {
    assert SlotValid(sv.life.slots[i], sv.life.last);
  }

  // A worker's first call is answered with its incarnation.
  lemma HelloOutcome(br: Br, sv: Sup, i: u64, window: seq<Nudge>)
    requires Working(br, sv) && i < SLOTS
    ensures var s := sv.life.slots[i];
            Handled(br, sv, i, Message(LT_HELLO, []), window) ==
              if br.inc[i] != 0 then (br.(bad := (br.bad + 1) % (U64_MAX + 1)), sv, Reply(4, 0))
              else if s.state == UNUSED then (br, sv, Reply(1, 0))
              else if s.state != STARTING then (br, sv, Reply(4, 0))
              else
                (br.(inc := br.inc[i := s.incarnation]), WithSlot(sv, i, s.(state := READY)), Reply(0, s.incarnation))
  {
    hide Step;
    var s := sv.life.slots[i];
    assert SlotValid(s, sv.life.last);
    if s.state == UNUSED {
      UnnamedOutcome(sv.life, Input(Actor.Supervisor, Event(STARTED, i, 0, 0), false));
    } else {
      StartedOutcome(sv.life, i, false);
    }
  }

  // A ticket is given out exactly to the active worker that holds none.
  lemma BeginServed(br: Br, sv: Sup, i: u64, incarnation: u64, window: seq<Nudge>)
    requires Working(br, sv) && i < SLOTS
    ensures var s := sv.life.slots[i];
            Handled(br, sv, i, Message(LT_BEGIN, [incarnation]), window) ==
              if incarnation == 0 || incarnation != br.inc[i] then
                (br.(stale := (br.stale + 1) % (U64_MAX + 1)), sv, Reply(3, 0))
              else if s.state != ACTIVE || s.pending != 0 then (br, sv, Reply(4, 0))
              else if s.issued == U64_MAX then (br, sv, Reply(6, 0))
              else
                (br.(pending := br.pending[i := s.issued + 1], begun := (br.begun + 1) % (U64_MAX + 1)),
                 WithSlot(sv, i, s.(issued := s.issued + 1, pending := s.issued + 1)), Reply(0, s.issued + 1))
  {
    hide Step, Agree;
    assert Mirrored(br, sv, i) by { AgreeMirrored(br, sv, i); }
    if incarnation != 0 && incarnation == br.inc[i] { BeginOutcome(sv.life, i, false); }
  }

  // It is given back exactly by its number.
  lemma CompleteServed(br: Br, sv: Sup, i: u64, incarnation: u64, sequence: u64, window: seq<Nudge>)
    requires Working(br, sv) && i < SLOTS
    ensures var s := sv.life.slots[i];
            Handled(br, sv, i, Message(LT_COMPLETE, [incarnation, sequence]), window) ==
              if incarnation == 0 || incarnation != br.inc[i] || sequence == 0 || sequence != s.pending then
                (br.(stale := (br.stale + 1) % (U64_MAX + 1)), sv, Reply(3, 0))
              else if s.state != ACTIVE then (br, sv, Reply(4, 0))
              else (br.(pending := br.pending[i := 0]), WithSlot(sv, i, s.(pending := 0)), Reply(0, sequence))
  {
    hide Step, Agree;
    assert Mirrored(br, sv, i) by { AgreeMirrored(br, sv, i); }
    if incarnation != 0 && incarnation == br.inc[i] && sequence != 0 {
      CompleteOutcome(sv.life, i, sequence, false);
    }
  }

  // Anything else a worker sends is counted and refused.
  lemma BadRequest(br: Br, sv: Sup, i: u64, m: Message, window: seq<Nudge>)
    requires Working(br, sv) && i < SLOTS
    requires !Is(m, LT_HELLO, 0) && !Is(m, LT_BEGIN, 1) && !Is(m, LT_COMPLETE, 2)
    ensures Handled(br, sv, i, m, window) == (br.(bad := (br.bad + 1) % (U64_MAX + 1)), sv, Reply(1, 0))
  {
  }

  // The controller may wake the active worker that holds no ticket; asking
  // changes nothing.
  lemma KickOutcome(br: Br, sv: Sup, slot: u64, window: seq<Nudge>)
    requires Working(br, sv)
    ensures Handled(br, sv, 2, Message(LT_KICK, [slot]), window) ==
              (br, sv,
               if slot >= SLOTS || br.inc[slot] == 0 then Reply(1, 0)
               else if sv.life.slots[slot].state == ACTIVE && sv.life.slots[slot].pending == 0
               then Reply(0, sv.life.slots[slot].incarnation)
               else Reply(4, 0))
  {
    if slot < SLOTS && br.inc[slot] != 0 { ViewCredible(br, sv, slot); }
  }

  lemma StoppedAtRest(br: Br, sv: Sup, i: u64)
    requires Working(br, sv) && i < SLOTS && sv.life.slots[i].state == CLOSING
    ensures sv.life.slots[i].stopped == 1 && sv.life.slots[i].drained == 0
  {
    assert SlotValid(sv.life.slots[i], sv.life.last);
  }

  // Draining the contained worker gives up its ticket and retires it.
  lemma DrainServed(br: Br, sv: Sup, i: u64)
    requires Working(br, sv) && i < SLOTS && br.inc[i] != 0 && sv.life.slots[i].state == CLOSING
    ensures var s := sv.life.slots[i];
            Handled(br, sv, 2, Message(LT_DRAIN, [i]), []) ==
              (br.(pending := br.pending[i := 0], drains := (br.drains + 1) % (U64_MAX + 1)),
               WithSlot(sv, i, s.(state := RETIRED, drained := 1, pending := 0)), Reply(0, s.incarnation))
  {
    hide Step, Agree, Sound, Valid;
    var s := sv.life.slots[i];
    assert Mirrored(br, sv, i) by { AgreeMirrored(br, sv, i); }
    assert s.stopped == 1 && s.drained == 0 by { StoppedAtRest(br, sv, i); }
    ViewCredible(br, sv, i);
    assert Disturbed(sv, []) == sv;
    DrainedOutcome(sv.life, i, s.issued, false);
  }

  // The broker's status: its failure flag, the refused and stale requests, the
  // tickets begun, the drains, and one bit a slot for a ticket out and for an
  // introduction.
  lemma StatsOutcome(br: Br, sv: Sup, window: seq<Nudge>)
    requires Working(br, sv)
    ensures var (next, gate, reply) := Handled(br, sv, 2, Message(LT_BROKER_STATUS, []), window);
            && next == br && gate == sv && reply.tag == LT_STATS && |reply.words| == 7
            && reply.words[..5] == [0, br.bad, br.stale, br.begun, br.drains]
            && reply.words[5] < 4 && reply.words[6] < 4
            && (reply.words[5] % 2 == 1 <==> sv.life.slots[0].pending != 0)
            && (reply.words[5] >= 2 <==> sv.life.slots[1].pending != 0)
            && (reply.words[6] % 2 == 1 <==> br.inc[0] != 0) && (reply.words[6] >= 2 <==> br.inc[1] != 0)
  {
  }

  // ---------- one worker's life ----------

  function Answered(s: System, move: Move): seq<Message> {
    match move
    case ToGate(Call(ch, m)) => [Served(s.sv, ch, m).1]
    case ToGate(Fault(child, m)) => []
    case ToBroker(ch, m, window) => [Handled(s.br, s.sv, ch, m, window).2]
  }

  // The replies to a sequence of moves and the state they leave.
  function Replies(s: System, moves: seq<Move>): seq<Message>
    decreases |moves|
  {
    if moves == [] then [] else Answered(s, moves[0]) + Replies(Moved(s, moves[0]), moves[1..])
  }

  function End(s: System, moves: seq<Move>): System
    decreases |moves|
  {
    if moves == [] then s else End(Moved(s, moves[0]), moves[1..])
  }

  lemma {:induction false} TalkSum(s: System, moves: seq<Move>, more: seq<Move>)
    ensures End(s, moves + more) == End(End(s, moves), more)
    ensures Replies(s, moves + more) == Replies(s, moves) + Replies(End(s, moves), more)
    decreases |moves|
  {
    hide Moved, Answered;
    if moves == [] {
      assert moves + more == more;
    } else {
      TalkSum(Moved(s, moves[0]), moves[1..], more);
      assert (moves + more)[1..] == moves[1..] + more;
    }
  }

  lemma TalkTwo(s: System, first: Move, second: Move)
    ensures End(s, [first, second]) == Moved(Moved(s, first), second)
    ensures Replies(s, [first, second]) == Answered(s, first) + Answered(Moved(s, first), second)
  {
    hide Moved, Answered;
    var next := Moved(s, first);
    assert End(next, [second]) == End(Moved(next, second), []);
    assert Replies(next, [second]) == Answered(next, second) + Replies(Moved(next, second), []);
    assert [first, second][1..] == [second];
  }

  function Control(op: u64, i: u64): Move { ToGate(Call(0, Message(LT_CONTROL, [op, i]))) }

  function Hello(i: u64): Move { ToBroker(i, Message(LT_HELLO, []), []) }

  function Begin(i: u64, inc: u64): Move { ToBroker(i, Message(LT_BEGIN, [inc]), []) }

  function Drain(i: u64): Move { ToBroker(2, Message(LT_DRAIN, [i]), []) }

  // Both sides are at work, and slot i is s on both.
  predicate Bound(sys: System, i: u64, s: Slot)
    requires i < SLOTS
  {
    && Agree(sys) && !sys.br.failed && !sys.sv.failed
    && sys.sv.life.slots[i] == s && sys.br.inc[i] == s.incarnation
  }

  lemma FreshUnknown(s: System, i: u64)
    requires Agree(s) && !s.br.failed && !s.sv.failed && i < SLOTS && s.sv.life.slots[i].state == UNUSED
    ensures s.br.inc[i] == 0 && Running(s.sv)
  {
    assert SlotValid(s.sv.life.slots[i], s.sv.life.last);
  }

  // With no worker about and incarnations left, a fresh slot can be started and
  // introduced.
  lemma StartTalk(s: System, i: u64)
    requires Agree(s) && !s.br.failed && !s.sv.failed && i < SLOTS && s.sv.life.slots[i].state == UNUSED
    requires !s.sv.life.slots[1 - i].Occupied() && s.sv.life.last < U64_MAX
    ensures var inc, moves := s.sv.life.last + 1, [Control(RESERVE, i), Hello(i)];
            Replies(s, moves) == [Reply(0, inc), Reply(0, inc)] && Bound(End(s, moves), i, Slot(READY, inc, 0, 0, 0, 0))
  {
    hide Served, Handled, Agree;
    assert s.br.inc[i] == 0 && Running(s.sv) by { FreshUnknown(s, i); }
    ReserveServed(s.sv, i);
    MovedAgrees(s, Control(RESERVE, i));
    var started := Moved(s, Control(RESERVE, i));
    HelloOutcome(started.br, started.sv, i, []);
    MovedAgrees(started, Hello(i));
    TalkTwo(s, Control(RESERVE, i), Hello(i));
  }

  lemma BoundRunning(s: System, i: u64, slot: Slot)
    requires i < SLOTS && Bound(s, i, slot)
    ensures Running(s.sv)
  {
  }

  // Once activated it is given its first ticket.
  lemma WorkTalk(s: System, i: u64, inc: u64)
    requires i < SLOTS && inc != 0 && Bound(s, i, Slot(READY, inc, 0, 0, 0, 0))
    ensures var moves := [Control(ACTIVATE, i), Begin(i, inc)];
            Replies(s, moves) == [Reply(0, inc), Reply(0, 1)] && Bound(End(s, moves), i, Slot(ACTIVE, inc, 1, 1, 0, 0))
  {
    hide Served, Handled, Agree;
    assert Running(s.sv) by { BoundRunning(s, i, s.sv.life.slots[i]); }
    ActivateServed(s.sv, i);
    MovedAgrees(s, Control(ACTIVATE, i));
    var active := Moved(s, Control(ACTIVATE, i));
    BeginServed(active.br, active.sv, i, inc, []);
    MovedAgrees(active, Begin(i, inc));
    TalkTwo(s, Control(ACTIVATE, i), Begin(i, inc));
  }

  lemma BoundFresh(s: System, i: u64, slot: Slot)
    requires i < SLOTS && Bound(s, i, slot) && slot.Live()
    ensures Running(s.sv) && slot.drained == 0
  {
    assert SlotValid(slot, s.sv.life.last);
  }

  // Contained, with or without its ticket given back, it can be drained.
  lemma CloseTalk(s: System, i: u64, slot: Slot)
    requires i < SLOTS && Bound(s, i, slot) && slot.Live() && slot.incarnation != 0
    ensures var moves := [Control(CONTAIN, i), Drain(i)];
            && Replies(s, moves) == [Reply(0, slot.incarnation), Reply(0, slot.incarnation)]
            && Bound(End(s, moves), i, Slot(RETIRED, slot.incarnation, slot.issued, 0, 1, 1))
  {
    hide Served, Handled, Agree;
    assert Running(s.sv) && slot.drained == 0 by { BoundFresh(s, i, slot); }
    ContainServed(s.sv, i);
    MovedAgrees(s, Control(CONTAIN, i));
    var closing := Moved(s, Control(CONTAIN, i));
    DrainServed(closing.br, closing.sv, i);
    MovedAgrees(closing, Drain(i));
    TalkTwo(s, Control(CONTAIN, i), Drain(i));
  }

  // Started, greeted, activated, given a ticket, contained and drained.
  function Script(i: u64, inc: u64): seq<Move> {
    [Control(RESERVE, i), Hello(i)] + [Control(ACTIVATE, i), Begin(i, inc)] + [Control(CONTAIN, i), Drain(i)]
  }

  lemma WholeTalk(s: System, i: u64)
    requires Agree(s) && !s.br.failed && !s.sv.failed && i < SLOTS && s.sv.life.slots[i].state == UNUSED
    requires !s.sv.life.slots[1 - i].Occupied() && s.sv.life.last < U64_MAX
    ensures var inc := s.sv.life.last + 1;
            && Replies(s, Script(i, inc)) ==
                 [Reply(0, inc), Reply(0, inc), Reply(0, inc), Reply(0, 1), Reply(0, inc), Reply(0, inc)]
            && Bound(End(s, Script(i, inc)), i, Slot(RETIRED, inc, 1, 0, 1, 1))
  {
    hide Agree, Replies, End, Control, Hello, Begin, Drain, Bound, Reply;
    var inc := s.sv.life.last + 1;
    var start, work := [Control(RESERVE, i), Hello(i)], [Control(ACTIVATE, i), Begin(i, inc)];
    var close := [Control(CONTAIN, i), Drain(i)];
    StartTalk(s, i);
    WorkTalk(End(s, start), i, inc);
    CloseTalk(End(End(s, start), work), i, Slot(ACTIVE, inc, 1, 1, 0, 0));
    TalkSum(s, start + work, close);
    TalkSum(s, start, work);
  }

  // A whole life, from any reachable state with a fresh slot and no other worker:
  // every request is granted, and the slot ends retired with its ticket given up.
  lemma WorkerLife(moves: seq<Move>, s: System, i: u64)
    requires s == SystemAt(moves, |moves|) && !s.br.failed && !s.sv.failed && i < SLOTS
    requires s.sv.life.slots[i].state == UNUSED && !s.sv.life.slots[1 - i].Occupied() && s.sv.life.last < U64_MAX
    ensures var inc := s.sv.life.last + 1;
            && Replies(s, Script(i, inc)) ==
                 [Reply(0, inc), Reply(0, inc), Reply(0, inc), Reply(0, 1), Reply(0, inc), Reply(0, inc)]
            && End(s, Script(i, inc)).sv.life.slots[i] == Slot(RETIRED, inc, 1, 0, 1, 1)
  {
    hide SystemAt, Agree, Script, Replies, End, Reply;
    Agreement(moves, |moves|);
    WholeTalk(s, i);
  }
}

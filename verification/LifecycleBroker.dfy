// tests/lifecycle/broker.c: the request broker, and its agreement with the
// supervisor over every interleaving of their callers.

module LifecycleBroker {
  import opened Words
  import opened Lifecycle
  import opened LifecycleRuns
  import opened LifecycleSupervisor
  import opened Messages

  const LT_HELLO: u64 := 0x720
  const LT_BEGIN: u64 := 0x721
  const LT_COMPLETE: u64 := 0x722
  const LT_KICK: u64 := 0x723
  const LT_DRAIN: u64 := 0x724
  const LT_BROKER_STATUS: u64 := 0x725
  const LT_STATS: u64 := 0x783

  type Pair = p: seq<u64> | |p| == SLOTS witness [0, 0]

  // The broker's private mirror: which incarnation each worker channel speaks
  // for and which ticket it holds. Counters wrap as `uint64_t` does.
  datatype Br = Br(ready: bool, failed: bool, inc: Pair, pending: Pair, bad: u64, stale: u64, begun: u64, drains: u64)

  datatype Response = Response(status: u64, value: u64)

  const OK: u64 := 0

  function Up(counter: u64): u64 { if counter == U64_MAX then 0 else counter + 1 }

  // Anything but a well-formed lifecycle result counts as an uncertain failure.
  function Parsed(m: Message): Response {
    if !Is(m, LT_RESULT, 2) || m.words[0] > Word(Exhausted) || (m.words[0] != OK && m.words[1] != 0) then
      Response(FAILURE, 0)
    else Response(m.words[0], m.words[1])
  }

  function Mask(p: Pair): u64 { (if p[0] != 0 then 1 else 0) + (if p[1] != 0 then 2 else 0) }

  function Stats(br: Br): Message {
    Message(LT_STATS, [if br.failed then 1 else 0, br.bad, br.stale, br.begun, br.drains, Mask(br.pending), Mask(br.inc)])
  }

  // A slot view the broker is willing to believe.
  predicate Credible(br: Br, slot: u64, m: Message)
    requires slot < SLOTS
  {
    Is(m, LT_SLOT, 6) && m.words[0] <= RETIRED && m.words[1] == br.inc[slot] && m.words[4] <= 1 && m.words[5] <= 1
  }

  function EventMessage(op: u64, slot: u64, inc: u64, seqno: u64): Message { Message(LT_EVENT, [op, slot, inc, seqno]) }

  // The controller's requests. Between the broker's two nested calls for a drain
  // other callers may reach the supervisor; before the first and after the last
  // nested call they cannot be told from callers outside this request.
  function Managed(br: Br, sv: Sup, m: Message, window: seq<Nudge>): (Br, Sup, Message) {
    if Is(m, LT_BROKER_STATUS, 0) then (br, sv, Stats(br))
    else if Is(m, LT_KICK, 1) || Is(m, LT_DRAIN, 1) then
      var slot := m.words[0];
      if slot >= SLOTS || br.inc[slot] == 0 then (br, sv, Reply(Word(Invalid), 0))
      else
        var (sv1, view) := Served(sv, 1, Message(LT_VIEW, [slot]));
        if !Credible(br, slot, view) then (br.(failed := true), sv1, Reply(FAILURE, 0))
        else if m.tag == LT_KICK then
          (br, sv1, if view.words[0] != ACTIVE || br.pending[slot] != 0 then Reply(Word(BadState), 0)
                    else Reply(OK, br.inc[slot]))
        else if view.words[0] != CLOSING || view.words[4] == 0 || view.words[5] != 0
                || view.words[3] != br.pending[slot] then (br, sv1, Reply(Word(BadState), 0))
        else
          var (sv2, reply) := Served(Disturbed(sv1, window), 1, EventMessage(DRAINED, slot, br.inc[slot], view.words[2]));
          var r := Parsed(reply);
          var dropped := br.(pending := br.pending[slot := 0]);
          (if r.status == OK then dropped.(drains := Up(br.drains)) else dropped.(failed := true),
           sv2, Reply(r.status, r.value))
    else (br, sv, Reply(Word(Invalid), 0))
  }

  // A worker's first call binds its channel to the incarnation being started.
  function Greeted(br: Br, sv: Sup, slot: u64): (Br, Sup, Message)
    requires slot < SLOTS
  {
    if br.inc[slot] != 0 then (br.(bad := Up(br.bad)), sv, Reply(Word(BadState), 0))
    else
      var (sv1, reply) := Served(sv, 1, Message(LT_READY, [slot]));
      var r := Parsed(reply);
      if r.status == FAILURE || (r.status == OK && r.value == 0) then
        (br.(failed := true), sv1, Reply(FAILURE, 0))
      else
        (if r.status == OK then br.(inc := br.inc[slot := r.value]) else br, sv1, Reply(r.status, r.value))
  }

  function Worked(br: Br, sv: Sup, slot: u64, m: Message): (Br, Sup, Message)
    requires slot < SLOTS
  {
    var begin, complete := Is(m, LT_BEGIN, 1), Is(m, LT_COMPLETE, 2);
    if !begin && !complete then (br.(bad := Up(br.bad)), sv, Reply(Word(Invalid), 0))
    else
      var inc := m.words[0];
      var sequence := if complete then m.words[1] else 0;
      if inc == 0 || inc != br.inc[slot] || (complete && (sequence == 0 || sequence != br.pending[slot])) then
        (br.(stale := Up(br.stale)), sv, Reply(Word(Stale), 0))
      else
        var (sv1, reply) := Served(sv, 1, EventMessage(if begin then BEGIN else COMPLETE, slot, inc, sequence));
        var r := Parsed(reply);
        if r.status != OK then (if r.status == FAILURE then br.(failed := true) else br, sv1, Reply(r.status, r.value))
        else if r.value == 0 || (complete && r.value != sequence) then (br.(failed := true), sv1, Reply(FAILURE, 0))
        else
          (br.(pending := br.pending[slot := if begin then r.value else 0],
               begun := if begin then Up(br.begun) else br.begun),
           sv1, Reply(OK, r.value))
  }

  function Handled(br: Br, sv: Sup, ch: u64, m: Message, window: seq<Nudge>): (Br, Sup, Message) {
    if !br.ready || br.failed || ch > 2 then (br, sv, Reply(FAILURE, 0))
    else if ch == 2 then Managed(br, sv, m, window)
    else if Is(m, LT_HELLO, 0) then Greeted(br, sv, ch)
    else Worked(br, sv, ch, m)
  }

  // ---------- the composed system ----------

  datatype System = System(br: Br, sv: Sup)

  datatype Move = ToGate(n: Nudge) | ToBroker(ch: u64, m: Message, window: seq<Nudge>)

  const STARTUP := System(Br(true, false, [0, 0], [0, 0], 0, 0, 0, 0), BOOTED)

  function Moved(s: System, move: Move): System {
    match move
    case ToGate(n) => s.(sv := Nudged(s.sv, n))
    case ToBroker(ch, m, window) =>
      var (br, sv, reply) := Handled(s.br, s.sv, ch, m, window);
      System(br, sv)
  }

  function SystemAt(moves: seq<Move>, n: nat): System
    requires n <= |moves|
  {
    if n == 0 then STARTUP else Moved(SystemAt(moves, n - 1), moves[n - 1])
  }

  // While the broker has not failed, it mirrors each slot exactly; a slot it has
  // not been introduced to has never been ready and never issued a ticket.
  predicate Mirrors(br: Br, s: Slot, i: u64)
    requires i < SLOTS
  {
    && br.pending[i] == s.pending
    && (br.inc[i] != 0 ==> br.inc[i] == s.incarnation)
    && (br.inc[i] == 0 ==> s.issued == 0 && s.drained == 0 && s.state != READY && s.state != ACTIVE)
  }

  predicate Agree(s: System) {
    && s.br.ready && Sound(s.sv)
    && (s.br.failed ==> s.sv.failed)
    && (!s.br.failed ==>
          && Mirrors(s.br, s.sv.life.slots[0], 0) && Mirrors(s.br, s.sv.life.slots[1], 1)
          && s.br.begun == (s.sv.life.slots[0].issued + s.sv.life.slots[1].issued) % (U64_MAX + 1)
          && s.br.drains == s.sv.life.slots[0].drained + s.sv.life.slots[1].drained)
  }

  // What callers other than the broker can never change about a slot.
  predicate Untouched(s: Slot, t: Slot) {
    && t.pending == s.pending && t.issued == s.issued && t.drained == s.drained
    && (s.state != UNUSED ==> t.state != UNUSED && t.incarnation == s.incarnation)
    && (s.state != READY && s.state != ACTIVE ==> t.state != READY && t.state != ACTIVE)
    && (CLOSING <= s.state ==> t == s)
  }

  lemma ControlledUntouched(sv: Sup, op: u64, slot: u64, i: u64)
    requires Sound(sv) && i < SLOTS
    ensures Untouched(sv.life.slots[i], Controlled(sv, op, slot).0.life.slots[i])
  {
    hide Step, Check;
    if slot < SLOTS && op == CONTAIN {
      ContainedExactly(sv, slot, Admin);
    } else if slot < SLOTS {
      var x := Input(Admin, Event(op, slot, if op == RESERVE then 0 else sv.life.slots[slot].incarnation, 0), true);
      StepFrame(sv.life, x);
      if Check(sv.life, x) == Ok { SlotMoves(sv.life, x); }
    }
  }

  lemma NudgedUntouched(sv: Sup, n: Nudge, i: u64)
    requires Sound(sv) && i < SLOTS
    ensures Untouched(sv.life.slots[i], Nudged(sv, n).life.slots[i])
    ensures sv.failed ==> Nudged(sv, n).failed && Nudged(sv, n).life == sv.life
  {
    hide Step, Controlled, Contained;
    if n.Call? && Is(n.m, LT_CONTROL, 2) {
      ControlledUntouched(sv, n.m.words[0], n.m.words[1], i);
    } else if n.Fault? && Expected(sv, n.child, n.m) {
      ContainedExactly(sv.(ip := n.m.words[0], address := n.m.words[1], fsr := n.m.words[3], faults := 1), 1, Actor.Supervisor);
    }
  }

  lemma {:induction false} DisturbedUntouched(sv: Sup, window: seq<Nudge>, i: u64)
    requires Sound(sv) && i < SLOTS
    ensures Untouched(sv.life.slots[i], Disturbed(sv, window).life.slots[i])
    ensures sv.failed ==> Disturbed(sv, window).failed && Disturbed(sv, window).life == sv.life
    decreases |window|
  {
    hide Nudged, Sound;
    if window != [] {
      NudgedUntouched(sv, window[0], i);
      NudgedSound(sv, window[0]);
      DisturbedUntouched(Nudged(sv, window[0]), window[1..], i);
    }
  }

  // A lifecycle result survives the trip through the message registers.
  lemma ParsedStep(life: Life, x: Input)
    ensures Parsed(Answer(Step(life, x).1)) == Response(Word(Step(life, x).1.status), Step(life, x).1.value)
  {
    hide Step;
    StepFrame(life, x);
  }

  lemma GreetedAgrees(br: Br, sv: Sup, slot: u64)
    requires Agree(System(br, sv)) && !br.failed && !sv.failed && slot < SLOTS
    ensures Agree(System(Greeted(br, sv, slot).0, Greeted(br, sv, slot).1))
  {
    hide Step;
    var x := Input(Actor.Supervisor, Event(STARTED, slot, sv.life.slots[slot].incarnation, 0), false);
    ServedSound(sv, 1, Message(LT_READY, [slot]));
    ParsedStep(sv.life, x);
    StepFrame(sv.life, x);
    if Check(sv.life, x) == Ok { SlotMoves(sv.life, x); }
  }

  lemma UpWraps(count: nat)
    ensures Up(count % (U64_MAX + 1)) == (count + 1) % (U64_MAX + 1)
  {
  }

  // What the supervisor does with a ticket request, and says about it.
  lemma TicketServed(sv: Sup, e: Event)
    requires Sound(sv) && !sv.failed && e.slot < SLOTS && (e.op == BEGIN || e.op == COMPLETE)
    ensures var (sv1, reply) := Served(sv, 1, EventMessage(e.op, e.slot, e.incarnation, e.sequence));
            var s, t, r := sv.life.slots[e.slot], sv1.life.slots[e.slot], Parsed(reply);
            && Sound(sv1) && !sv1.failed && r.status != FAILURE
            && sv1.life.slots[1 - e.slot] == sv.life.slots[1 - e.slot]
            && (r.status != OK ==> sv1 == sv)
            && (r.status == OK ==>
                  && s.state == t.state == ACTIVE && t.incarnation == s.incarnation && t.drained == s.drained
                  && t.issued == s.issued + (if e.op == BEGIN then 1 else 0)
                  && t.pending == (if e.op == BEGIN then t.issued else 0)
                  && r.value == (if e.op == BEGIN then t.issued else e.sequence) && 0 < r.value)
  {
    hide Step;
    var x := Input(Actor.Broker, e, false);
    ServedSound(sv, 1, EventMessage(e.op, e.slot, e.incarnation, e.sequence));
    ParsedStep(sv.life, x);
    StepFrame(sv.life, x);
    if Check(sv.life, x) == Ok { SlotMoves(sv.life, x); }
  }

  lemma WorkedAgrees(br: Br, sv: Sup, slot: u64, m: Message)
    requires Agree(System(br, sv)) && !br.failed && !sv.failed && slot < SLOTS
    ensures Agree(System(Worked(br, sv, slot, m).0, Worked(br, sv, slot, m).1))
  {
    hide Served, Sound, Parsed;
    if Is(m, LT_BEGIN, 1) || Is(m, LT_COMPLETE, 2) {
      var begin := Is(m, LT_BEGIN, 1);
      TicketServed(sv, Event(if begin then BEGIN else COMPLETE, slot, m.words[0], if begin then 0 else m.words[1]));
      UpWraps(sv.life.slots[0].issued + sv.life.slots[1].issued);
    }
  }

  // A drain the broker forwards is for a stopped, undrained slot it knows; no
  // other caller can spoil it, short of failing the supervisor.
  lemma DrainForwarded(br: Br, sv: Sup, slot: u64, window: seq<Nudge>)
    requires Agree(System(br, sv)) && !br.failed && !sv.failed && slot < SLOTS
    requires br.inc[slot] != 0 && sv.life.slots[slot].state == CLOSING && sv.life.slots[slot].drained == 0
    ensures var s, sv1 := sv.life.slots[slot], Disturbed(sv, window);
            var (sv2, reply) := Served(sv1, 1, EventMessage(DRAINED, slot, br.inc[slot], s.issued));
            && Sound(sv2) && sv2.failed == sv1.failed
            && Parsed(reply) == (if sv1.failed then Response(FAILURE, 0) else Response(OK, s.incarnation))
            && (!sv1.failed ==> sv2.life.slots[slot] == s.(state := RETIRED, drained := 1, pending := 0)
                                && sv2.life.slots[1 - slot] == sv1.life.slots[1 - slot])
  {
    hide Step;
    var sv1 := Disturbed(sv, window);
    var e := Event(DRAINED, slot, br.inc[slot], sv.life.slots[slot].issued);
    var x := Input(Actor.Broker, e, false);
    DisturbedSound(sv, window);
    DisturbedUntouched(sv, window, slot);
    ServedSound(sv1, 1, EventMessage(e.op, e.slot, e.incarnation, e.sequence));
    ParsedStep(sv1.life, x);
    StepFrame(sv1.life, x);
    if Check(sv1.life, x) == Ok { SlotMoves(sv1.life, x); }
  }

  lemma ViewCredible(br: Br, sv: Sup, slot: u64)
    requires Agree(System(br, sv)) && !br.failed && !sv.failed && slot < SLOTS && br.inc[slot] != 0
    ensures Credible(br, slot, Served(sv, 1, Message(LT_VIEW, [slot])).1)
  {
    assert SlotValid(sv.life.slots[slot], sv.life.last);
  }

  lemma ManagedAgrees(br: Br, sv: Sup, m: Message, window: seq<Nudge>)
    requires Agree(System(br, sv)) && !br.failed && !sv.failed
    ensures Agree(System(Managed(br, sv, m, window).0, Managed(br, sv, m, window).1))
  {
    hide Step, Disturbed, Parsed;
    if (Is(m, LT_KICK, 1) || Is(m, LT_DRAIN, 1)) && m.words[0] < SLOTS && br.inc[m.words[0]] != 0 {
      var slot := m.words[0];
      ViewCredible(br, sv, slot);
      if m.tag == LT_DRAIN && sv.life.slots[slot].state == CLOSING && sv.life.slots[slot].drained == 0 {
        DrainForwarded(br, sv, slot, window);
        DisturbedUntouched(sv, window, 1 - slot);
        DisturbedUntouched(sv, window, slot);
      }
    }
  }

  // Once the supervisor has failed, a nested call can only make the broker fail
  // too, and nothing else changes.
  lemma HandledAgrees(br: Br, sv: Sup, ch: u64, m: Message, window: seq<Nudge>)
    requires Agree(System(br, sv))
    ensures Agree(System(Handled(br, sv, ch, m, window).0, Handled(br, sv, ch, m, window).1))
  {
    hide Sound;
    if !br.failed && !sv.failed {
      if ch == 2 { ManagedAgrees(br, sv, m, window); }
      else if ch < 2 && Is(m, LT_HELLO, 0) { GreetedAgrees(br, sv, ch); }
      else if ch < 2 { WorkedAgrees(br, sv, ch, m); }
    }
  }

  // ---------- the theorems ----------

  lemma MovedAgrees(s: System, move: Move)
    requires Agree(s)
    ensures Agree(Moved(s, move))
  {
    match move
    case ToGate(n) =>
      hide Nudged;
      NudgedSound(s.sv, n);
      NudgedUntouched(s.sv, n, 0);
      NudgedUntouched(s.sv, n, 1);
    case ToBroker(ch, m, window) => HandledAgrees(s.br, s.sv, ch, m, window);
  }

  // In every interleaving the mirror is exact while the broker has not failed,
  // and the broker never fails unless the supervisor has.
  lemma {:induction false} Agreement(moves: seq<Move>, n: nat)
    requires n <= |moves|
    ensures Agree(SystemAt(moves, n))
  {
    if n > 0 {
      Agreement(moves, n - 1);
      MovedAgrees(SystemAt(moves, n - 1), moves[n - 1]);
    }
  }

  // The drain request on a slot the broker knows is granted exactly when the
  // slot is contained and not yet drained, unless the supervisor fails while the
  // broker waits; granting it retires the slot.
  lemma DrainOutcome(moves: seq<Move>, n: nat, slot: u64, window: seq<Nudge>)
    requires n <= |moves| && slot < SLOTS
    requires !SystemAt(moves, n).br.failed && !SystemAt(moves, n).sv.failed && SystemAt(moves, n).br.inc[slot] != 0
    ensures var s := SystemAt(moves, n);
            var (br, sv, reply) := Handled(s.br, s.sv, 2, Message(LT_DRAIN, [slot]), window);
            var due := s.sv.life.slots[slot].state == CLOSING;
            && (reply == Reply(OK, s.br.inc[slot]) <==> due && !Disturbed(s.sv, window).failed)
            && (due && !Disturbed(s.sv, window).failed ==> sv.life.slots[slot].state == RETIRED && !br.failed)
            && (!due ==> reply == Reply(Word(BadState), 0) && br == s.br && sv == s.sv)
            && (due && Disturbed(s.sv, window).failed ==> reply == Reply(FAILURE, 0) && br.failed)
  {
    hide Step, Disturbed, Parsed, SystemAt;
    Agreement(moves, n);
    var s := SystemAt(moves, n);
    ViewCredible(s.br, s.sv, slot);
    assert SlotValid(s.sv.life.slots[slot], s.sv.life.last);
    if s.sv.life.slots[slot].state == CLOSING { DrainForwarded(s.br, s.sv, slot, window); }
  }

  // At rest at most one worker can run, and only one whose slot is starting,
  // ready or active.
  lemma OneWorkerRuns(moves: seq<Move>, n: nat, i: u64)
    requires n <= |moves| && i < SLOTS
    ensures var sv := SystemAt(moves, n).sv;
            && (Runs(sv, i) <==> !sv.failed && sv.life.slots[i].Live())
            && !(sv.running.0 && sv.running.1)
  {
    hide SystemAt;
    Agreement(moves, n);
  }

  // With a slot stuck closing and unknown to the broker, nobody moves any slot.
  predicate Stuck(s: System, i: u64)
    requires i < SLOTS
  {
    s.sv.life.slots[i].state == CLOSING && s.br.inc[i] == 0
  }

  lemma NudgedStuck(sv: Sup, n: Nudge, i: u64)
    requires Sound(sv) && i < SLOTS && sv.life.slots[i].state == CLOSING
    ensures Nudged(sv, n).life.slots == sv.life.slots
  {
    hide Nudged;
    NudgedSound(sv, n);
    NudgedUntouched(sv, n, i);
    NudgedUntouched(sv, n, 1 - i);
    var next := Nudged(sv, n);
    assert SlotValid(sv.life.slots[1 - i], sv.life.last) && SlotValid(next.life.slots[1 - i], next.life.last);
    assert next.life.slots == [next.life.slots[0], next.life.slots[1]];
  }

  lemma ManagedStuck(br: Br, sv: Sup, m: Message, window: seq<Nudge>, i: u64)
    requires Agree(System(br, sv)) && !br.failed && !sv.failed && i < SLOTS && Stuck(System(br, sv), i)
    ensures Managed(br, sv, m, window).0.inc == br.inc && Managed(br, sv, m, window).1.life == sv.life
  {
    hide Disturbed, Parsed;
    assert SlotValid(sv.life.slots[1 - i], sv.life.last);
    if |m.words| == 1 && m.words[0] < SLOTS && br.inc[m.words[0]] != 0 { ViewCredible(br, sv, m.words[0]); }
  }

  lemma GreetedStuck(br: Br, sv: Sup, slot: u64, i: u64)
    requires Agree(System(br, sv)) && !br.failed && !sv.failed && i < SLOTS && slot < SLOTS && Stuck(System(br, sv), i)
    ensures Greeted(br, sv, slot).0.inc == br.inc && Greeted(br, sv, slot).1.life == sv.life
  {
    assert SlotValid(sv.life.slots[1 - i], sv.life.last);
  }

  lemma WorkedStuck(br: Br, sv: Sup, slot: u64, m: Message, i: u64)
    requires Agree(System(br, sv)) && !br.failed && !sv.failed && i < SLOTS && slot < SLOTS && Stuck(System(br, sv), i)
    ensures Worked(br, sv, slot, m).0.inc == br.inc && Worked(br, sv, slot, m).1.life == sv.life
  {
    hide Served, Parsed;
    assert SlotValid(sv.life.slots[1 - i], sv.life.last);
    if Is(m, LT_BEGIN, 1) || Is(m, LT_COMPLETE, 2) {
      var begin := Is(m, LT_BEGIN, 1);
      TicketServed(sv, Event(if begin then BEGIN else COMPLETE, slot, m.words[0], if begin then 0 else m.words[1]));
    }
  }

  lemma HandledStuck(br: Br, sv: Sup, ch: u64, m: Message, window: seq<Nudge>, i: u64)
    requires Agree(System(br, sv)) && !br.failed && !sv.failed && i < SLOTS && Stuck(System(br, sv), i)
    ensures Handled(br, sv, ch, m, window).0.inc == br.inc && Handled(br, sv, ch, m, window).1.life == sv.life
  {
    hide Managed, Greeted, Worked, Agree;
    if ch == 2 {
      ManagedStuck(br, sv, m, window, i);
    } else if ch < 2 {
      GreetedStuck(br, sv, ch, i);
      WorkedStuck(br, sv, ch, m, i);
    }
  }

  lemma MovedStuck(s: System, move: Move, i: u64)
    requires Agree(s) && i < SLOTS && Stuck(s, i)
    ensures Stuck(Moved(s, move), i) && Moved(s, move).sv.life.slots == s.sv.life.slots
  {
    match move
    case ToGate(n) => NudgedStuck(s.sv, n, i);
    case ToBroker(ch, m, window) =>
      if !s.br.failed && !s.sv.failed { HandledStuck(s.br, s.sv, ch, m, window, i); }
  }

  // A limit of the fixture: a worker contained before its first call is never
  // introduced to the broker, so its slot stays closing in every continuation and
  // no second worker can ever be reserved.
  lemma {:induction false} NeverIntroducedNeverDrained(moves: seq<Move>, m: nat, n: nat, i: u64)
    requires m <= n <= |moves| && i < SLOTS
    requires Stuck(SystemAt(moves, m), i)
    ensures Stuck(SystemAt(moves, n), i) && SystemAt(moves, n).sv.life.slots == SystemAt(moves, m).sv.life.slots
    decreases n
  {
    hide Agree, Moved;
    if m < n {
      NeverIntroducedNeverDrained(moves, m, n - 1, i);
      Agreement(moves, n - 1);
      MovedStuck(SystemAt(moves, n - 1), moves[n - 1], i);
    }
  }

  // Two controller requests reach such a state: start worker 0, and contain it
  // before its first call.
  const HASTY: seq<Move> := [ToGate(Call(0, Message(LT_CONTROL, [RESERVE, 0]))),
                             ToGate(Call(0, Message(LT_CONTROL, [CONTAIN, 0])))]

  lemma StuckReachable()
    ensures Stuck(SystemAt(HASTY, 2), 0) && !SystemAt(HASTY, 2).br.failed && !SystemAt(HASTY, 2).sv.failed
  {
    var s := STARTUP.sv;
    var started := Controlled(s, RESERVE, 0).0;
    assert started.life.slots == [EMPTY.(state := STARTING, incarnation := 1), EMPTY] && Valid(started.life);
    ContainedExactly(started, 0, Admin);
    var stopped := Controlled(started, CONTAIN, 0).0;
    assert SystemAt(HASTY, 0) == STARTUP;
    assert Moved(STARTUP, HASTY[0]) == STARTUP.(sv := started);
    assert SystemAt(HASTY, 1) == STARTUP.(sv := started);
    assert SystemAt(HASTY, 2) == STARTUP.(sv := stopped);
  }

  lemma {:induction false} SystemAtPrefix(moves: seq<Move>, more: seq<Move>, n: nat)
    requires n <= |moves|
    ensures SystemAt(moves + more, n) == SystemAt(moves, n)
  {
    hide Moved;
    if n > 0 { SystemAtPrefix(moves, more, n - 1); }
  }

  // Slot i has been retired after the further moves.
  predicate Retires(moves: seq<Move>, more: seq<Move>, i: u64)
    requires i < SLOTS
  {
    SystemAt(moves + more, |moves + more|).sv.life.slots[i].state == RETIRED
  }

  lemma SystemAtNext(moves: seq<Move>, move: Move)
    ensures SystemAt(moves + [move], |moves + [move]|) == Moved(SystemAt(moves, |moves|), move)
  {
    hide Moved;
    SystemAtPrefix(moves, [move], |moves|);
  }

  lemma MovedToBroker(s: System, m: Message)
    ensures Moved(s, ToBroker(2, m, [])).sv == Handled(s.br, s.sv, 2, m, []).1
  {
  }

  lemma {:induction false} DrainRetires(moves: seq<Move>, i: u64)
    requires i < SLOTS
    requires var s := SystemAt(moves, |moves|);
             !s.br.failed && !s.sv.failed && s.sv.life.slots[i].state == CLOSING && s.br.inc[i] != 0
    ensures Retires(moves, [ToBroker(2, Message(LT_DRAIN, [i]), [])], i)
  {
    hide SystemAt, Moved, Handled;
    var s, drain := SystemAt(moves, |moves|), Message(LT_DRAIN, [i]);
    DrainOutcome(moves, |moves|, i, []);
    SystemAtNext(moves, ToBroker(2, drain, []));
    MovedToBroker(s, drain);
    assert Disturbed(s.sv, []) == s.sv;
  }

  // A failed supervisor keeps its lifecycle for good.
  lemma MovedFrozen(s: System, move: Move)
    requires Agree(s) && s.sv.failed
    ensures Moved(s, move).sv.failed && Moved(s, move).sv.life == s.sv.life
  {
    match move
    case ToGate(n) => NudgedUntouched(s.sv, n, 0);
    case ToBroker(ch, m, window) => DisturbedUntouched(s.sv, window, 0);
  }

  lemma {:induction false} FailedFrozen(moves: seq<Move>, m: nat, n: nat)
    requires m <= n <= |moves| && SystemAt(moves, m).sv.failed
    ensures SystemAt(moves, n).sv.failed && SystemAt(moves, n).sv.life == SystemAt(moves, m).sv.life
    decreases n
  {
    hide Agree, Moved;
    if m < n {
      FailedFrozen(moves, m, n - 1);
      Agreement(moves, n - 1);
      MovedFrozen(SystemAt(moves, n - 1), moves[n - 1]);
    }
  }

  // Exactly which contained workers can still be retired, and so replaced: those
  // the broker was introduced to, as the last word of its status says, as long as
  // the supervisor has not failed.
  lemma {:induction false} RetirableExactly(moves: seq<Move>, i: u64)
    requires i < SLOTS && SystemAt(moves, |moves|).sv.life.slots[i].state == CLOSING
    ensures var s := SystemAt(moves, |moves|);
            (exists more :: Retires(moves, more, i)) <==> !s.sv.failed && s.br.inc[i] != 0
  {
    hide SystemAt, Moved, Sound, Mirrors;
    var n := |moves|;
    var s := SystemAt(moves, n);
    Agreement(moves, n);
    if !s.sv.failed && s.br.inc[i] != 0 {
      DrainRetires(moves, i);
    } else {
      forall more ensures !Retires(moves, more, i) {
        SystemAtPrefix(moves, more, n);
        if s.sv.failed {
          FailedFrozen(moves + more, n, |moves + more|);
        } else {
          NeverIntroducedNeverDrained(moves + more, n, |moves + more|, i);
        }
      }
    }
  }

  // The condition as the broker's status shows it to the controller.
  lemma IntroducedShown(br: Br, sv: Sup, i: u64, window: seq<Nudge>)
    requires br.ready && !br.failed && i < SLOTS
    ensures var reply := Handled(br, sv, 2, Message(LT_BROKER_STATUS, []), window).2;
            |reply.words| == 7 && (br.inc[i] != 0 <==> reply.words[6] / (if i == 0 then 1 else 2) % 2 == 1)
  {
  }

  // ---------- the C code ----------

  class Desk {
    const gate: GateOwner
    const inc: array<u64>
    const pending: array<u64>
    var ready: bool
    var failed: bool
    var bad: u64
    var stale: u64
    var begun: u64
    var drains: u64

    ghost predicate Shape() {
      inc.Length == SLOTS && pending.Length == SLOTS && inc != pending
    }

    ghost function View(): Br
      requires Shape()
      reads this, inc, pending
    {
      Br(ready, failed, inc[..], pending[..], bad, stale, begun, drains)
    }

    constructor (gate: GateOwner)
      ensures this.gate == gate && Shape() && fresh(inc) && fresh(pending)
      ensures View() == Br(false, false, [0, 0], [0, 0], 0, 0, 0, 0)
    {
      this.gate := gate;
      inc := new u64[SLOTS](_ => 0);
      pending := new u64[SLOTS](_ => 0);
      ready, failed, bad, stale, begun, drains := false, false, 0, 0, 0, 0;
    }

    method Init()
      requires Shape()
      modifies this
      ensures View() == old(View()).(ready := true, failed := old(ready || failed))
    {
      if ready { failed := true; }
      ready := true;
    }

    method CallGate(op: u64, slot: u64, incarnation: u64, sequence: u64) returns (r: Response)
      requires Shape()
      modifies this`failed, gate, gate.life
      ensures gate.life == old(gate.life)
      ensures var (sv, reply) := Served(old(gate.View()), 1, EventMessage(op, slot, incarnation, sequence));
              gate.View() == sv && r == Parsed(reply)
      ensures failed == (old(failed) || r.status == FAILURE)
    {
      var reply := gate.Protected(1, Message(LT_EVENT, [op, slot, incarnation, sequence]));
      r := Parsed(reply);
      if r.status == FAILURE { failed := true; } // An uncertain result is never retried.
    }

    method ViewSlot(slot: u64) returns (ok: bool, words: seq<u64>)
      requires Shape() && slot < SLOTS
      modifies this`failed, gate, gate.life
      ensures gate.life == old(gate.life)
      ensures var (sv, reply) := Served(old(gate.View()), 1, Message(LT_VIEW, [slot]));
              && gate.View() == sv && ok == Credible(old(View()), slot, reply) && words == reply.words
              && failed == (old(failed) || !ok)
    {
      var m := gate.Protected(1, Message(LT_VIEW, [slot]));
      words := m.words;
      if !Is(m, LT_SLOT, 6) {
        failed := true;
        return false, words;
      }
      if words[0] > RETIRED || words[1] != inc[slot] || words[4] > 1 || words[5] > 1 {
        failed := true;
        return false, words;
      }
      return true, words;
    }

    method Manage(m: Message, window: seq<Nudge>) returns (reply: Message)
      requires Shape() && ready && !failed
      modifies this, inc, pending, gate, gate.life
      ensures gate.life == old(gate.life)
      ensures (View(), gate.View(), reply) == Managed(old(View()), old(gate.View()), m, window)
    {
      if Is(m, LT_BROKER_STATUS, 0) {
        return Message(LT_STATS, [if failed then 1 else 0, bad, stale, begun, drains, Mask(pending[..]), Mask(inc[..])]);
      }
      if Is(m, LT_KICK, 1) || Is(m, LT_DRAIN, 1) {
        var slot := m.words[0];
        if slot >= SLOTS || inc[slot] == 0 { return Reply(Word(Invalid), 0); }
        var ok, view := ViewSlot(slot);
        if !ok { return Reply(FAILURE, 0); }
        if m.tag == LT_KICK {
          if view[0] != ACTIVE || pending[slot] != 0 { return Reply(Word(BadState), 0); }
          return Reply(OK, inc[slot]);
        }
        if view[0] != CLOSING || view[4] == 0 || view[5] != 0 || view[3] != pending[slot] {
          return Reply(Word(BadState), 0);
        }
        gate.Interfere(window);
        pending[slot] := 0;
        var r := CallGate(DRAINED, slot, inc[slot], view[2]);
        if r.status != OK { failed := true; } else { drains := Up(drains); }
        return Reply(r.status, r.value);
      }
      return Reply(Word(Invalid), 0);
    }

    method Protected(ch: u64, m: Message, window: seq<Nudge>) returns (reply: Message)
      requires Shape()
      modifies this, inc, pending, gate, gate.life
      ensures gate.life == old(gate.life)
      ensures (View(), gate.View(), reply) == Handled(old(View()), old(gate.View()), ch, m, window)
    {
      if !ready || failed || ch > 2 { return Reply(FAILURE, 0); }
      if ch == 2 {
        reply := Manage(m, window);
        return;
      }
      var slot := ch;
      if Is(m, LT_HELLO, 0) {
        if inc[slot] != 0 {
          bad := Up(bad);
          return Reply(Word(BadState), 0);
        }
        var answer := gate.Protected(1, Message(LT_READY, [slot]));
        var r := Parsed(answer);
        if r.status == FAILURE || (r.status == OK && r.value == 0) {
          failed := true;
          return Reply(FAILURE, 0);
        }
        if r.status == OK { inc[slot] := r.value; }
        return Reply(r.status, r.value);
      }
      var begin, complete := Is(m, LT_BEGIN, 1), Is(m, LT_COMPLETE, 2);
      if !begin && !complete {
        bad := Up(bad);
        return Reply(Word(Invalid), 0);
      }
      var incarnation, sequence := m.words[0], if complete then m.words[1] else 0;
      if incarnation == 0 || incarnation != inc[slot] || (complete && (sequence == 0 || sequence != pending[slot])) {
        stale := Up(stale);
        return Reply(Word(Stale), 0);
      }
      var r := CallGate(if begin then BEGIN else COMPLETE, slot, incarnation, sequence);
      if r.status == OK {
        if r.value == 0 || (complete && r.value != sequence) {
          failed := true;
          return Reply(FAILURE, 0);
        }
        pending[slot] := if begin then r.value else 0;
        if begin { begun := Up(begun); }
      }
      return Reply(r.status, r.value);
    }
  }
}

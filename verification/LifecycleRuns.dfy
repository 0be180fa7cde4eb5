// Whole runs of the lifecycle state machine, from the zero-initialised model,
// under any sequence of callers and events.

module LifecycleRuns {
  import opened Words
  import opened Lifecycle

  // The model after the first n inputs.
  function State(xs: seq<Input>, n: nat): Life
    requires n <= |xs|
  {
    if n == 0 then ZERO else Step(State(xs, n - 1), xs[n - 1]).0
  }

  predicate AcceptedOn(xs: seq<Input>, k: nat, op: u64, slot: u64)
    requires k < |xs|
  {
    Check(State(xs, k), xs[k]) == Ok && xs[k].event.op == op && xs[k].event.slot == slot
  }

  function Count(xs: seq<Input>, n: nat, op: u64, slot: u64): nat
    requires n <= |xs|
  {
    if n == 0 then 0
    else Count(xs, n - 1, op, slot) + if AcceptedOn(xs, n - 1, op, slot) then 1 else 0
  }

  lemma {:induction false} RunValid(xs: seq<Input>, n: nat)
    requires n <= |xs|
    ensures Valid(State(xs, n))
  {
    if n > 0 {
      RunValid(xs, n - 1);
      StepValid(State(xs, n - 1), xs[n - 1]);
    }
  }

  // An event that is not accepted returns value zero and changes nothing; an
  // accepted one changes the named slot and at most the incarnation counter.
  lemma StepFrame(life: Life, x: Input)
    ensures Step(life, x).1.status == Check(life, x)
    ensures Step(life, x).1.status != Ok ==> Step(life, x) == (life, Result(Check(life, x), 0))
    ensures Step(life, x).1.status == Ok ==>
              && Step(life, x).1.value != 0
              && (forall i | 0 <= i < SLOTS && i != x.event.slot :: Step(life, x).0.slots[i] == life.slots[i])
              && (x.event.op != RESERVE ==> Step(life, x).0.last == life.last)
  {
    if Check(life, x) == Ok {
      assert SlotValid(life.slots[x.event.slot], life.last);
    }
  }

  // ---------- history of a slot ----------

  // One accepted event: when, which, what it returned, and the tickets issued
  // and outstanding on its slot just before it.
  datatype Mark = Never | Noted(time: nat, x: Input, value: u64, issued: u64, pending: u64)

  // The latest accepted event of each irreversible kind on one slot.
  datatype History = History(reserved: Mark, contained: Mark, stopped: Mark, drained: Mark)

  function Marked(time: nat, life: Life, x: Input, i: u64): Mark
    requires i < SLOTS
  {
    Noted(time, x, Step(life, x).1.value, life.slots[i].issued, life.slots[i].pending)
  }

  function Note(h: History, time: nat, life: Life, x: Input, i: u64): History
    requires i < SLOTS
  {
    if Check(life, x) != Ok || x.event.slot != i then h
    else
      var mark := Marked(time, life, x, i);
      if x.event.op == RESERVE then h.(reserved := mark)
      else if x.event.op == CONTAIN then h.(contained := mark)
      else if x.event.op == STOPPED then h.(stopped := mark)
      else if x.event.op == DRAINED then h.(drained := mark)
      else h
  }

  function HistoryAt(xs: seq<Input>, n: nat, i: u64): History
    requires n <= |xs| && i < SLOTS
  {
    if n == 0 then History(Never, Never, Never, Never)
    else Note(HistoryAt(xs, n - 1, i), n - 1, State(xs, n - 1), xs[n - 1], i)
  }

  function Latest(h: History, op: u64): Mark {
    if op == RESERVE then h.reserved
    else if op == CONTAIN then h.contained
    else if op == STOPPED then h.stopped
    else if op == DRAINED then h.drained
    else Never
  }

  // A mark is a faithful record of an event accepted earlier in the run.
  lemma {:induction false} HistoryGenuine(xs: seq<Input>, n: nat, i: u64, op: u64)
    requires n <= |xs| && i < SLOTS
    ensures var m := Latest(HistoryAt(xs, n, i), op);
            m.Noted? ==> m.time < n && AcceptedOn(xs, m.time, op, i)
                         && m == Marked(m.time, State(xs, m.time), xs[m.time], i)
  {
    hide Step, Check;
    if n > 0 {
      HistoryGenuine(xs, n - 1, i, op);
      if !AcceptedOn(xs, n - 1, op, i) {
        assert Latest(HistoryAt(xs, n, i), op) == Latest(HistoryAt(xs, n - 1, i), op);
      }
    }
  }

  lemma {:induction false} HistoryLatest(xs: seq<Input>, p: nat, n: nat, i: u64)
    requires p < n <= |xs| && i < SLOTS && AcceptedOn(xs, p, RESERVE, i)
    ensures HistoryAt(xs, n, i).reserved.Noted? && p <= HistoryAt(xs, n, i).reserved.time
  {
    if p < n - 1 { HistoryLatest(xs, p, n - 1, i); }
  }

  predicate Confirms(h: History, m: Mark, actor: Actor, s: Slot) {
    m.Noted? ==>
      && h.contained.Noted? && h.contained.time < m.time
      && m.x.actor == actor && m.x.event.incarnation == s.incarnation && m.x.event.sequence == s.issued
  }

  // What the phase of a slot says about the events accepted on it so far: each
  // confirmation is for the slot's incarnation and for the number of tickets
  // issued when the slot was contained.
  predicate Explains(h: History, s: Slot) {
    && (h.reserved.Noted? <==> s.state != UNUSED)
    && (h.reserved.Noted? ==> h.reserved.value == s.incarnation)
    && (h.contained.Noted? <==> CLOSING <= s.state)
    && (h.contained.Noted? ==> h.reserved.Noted? && h.reserved.time < h.contained.time
                               && h.contained.x.event.incarnation == s.incarnation
                               && h.contained.issued == s.issued)
    && (h.stopped.Noted? <==> s.stopped == 1) && Confirms(h, h.stopped, Supervisor, s)
    && (h.drained.Noted? <==> s.drained == 1) && Confirms(h, h.drained, Broker, s)
  }

  // How one accepted event changes its own slot, phase by phase.
  lemma SlotMoves(life: Life, x: Input)
    requires Check(life, x) == Ok
    ensures var s, t, op := life.slots[x.event.slot], Step(life, x).0.slots[x.event.slot], x.event.op;
            && Trusted(x.actor, op) && InPhase(op, s.state) && SlotValid(s, life.last)
            && (op == RESERVE ==> s == EMPTY && t == EMPTY.(state := STARTING, incarnation := Step(life, x).1.value))
            && (op == STARTED ==> t == s.(state := READY))
            && (op == ACTIVATE ==> t == s.(state := ACTIVE))
            && (op == BEGIN ==> s.pending == 0 && s.issued < U64_MAX
                                && t == s.(issued := s.issued + 1, pending := s.issued + 1))
            && (op == COMPLETE ==> s.pending == x.event.sequence == s.issued != 0 && t == s.(pending := 0))
            && (op == CONTAIN ==> t == s.(state := CLOSING))
            && (op == STOPPED ==>
                  && s.stopped == 0 && x.event.sequence == s.issued
                  && t == s.(stopped := 1, state := if s.drained == 1 then RETIRED else CLOSING))
            && (op == DRAINED ==>
                  && s.drained == 0 && x.event.sequence == s.issued
                  && t == s.(drained := 1, pending := 0, state := if s.stopped == 1 then RETIRED else CLOSING))
            && (op != RESERVE ==> x.event.incarnation == s.incarnation)
            && Step(life, x).1.value == (if op == BEGIN then t.pending else if op == COMPLETE then s.pending else t.incarnation)
  {
    assert SlotValid(life.slots[x.event.slot], life.last);
  }

  lemma NoteExplains(h: History, time: nat, life: Life, x: Input, i: u64)
    requires i < SLOTS && Valid(life) && Explains(h, life.slots[i])
    requires h.reserved.Noted? ==> h.reserved.time < time
    requires h.contained.Noted? ==> h.contained.time < time
    ensures Explains(Note(h, time, life, x, i), Step(life, x).0.slots[i])
  {
    if Check(life, x) == Ok {
      StepFrame(life, x);
      SlotMoves(life, x);
      assert SlotValid(life.slots[i], life.last);
    }
  }

  lemma {:induction false} HistoryPast(xs: seq<Input>, n: nat, i: u64)
    requires n <= |xs| && i < SLOTS
    ensures HistoryAt(xs, n, i).reserved.Noted? ==> HistoryAt(xs, n, i).reserved.time < n
    ensures HistoryAt(xs, n, i).contained.Noted? ==> HistoryAt(xs, n, i).contained.time < n
  {
    if n > 0 { HistoryPast(xs, n - 1, i); }
  }

  lemma ExplainStep(xs: seq<Input>, n: nat, i: u64, h: History, life: Life)
    requires 0 < n <= |xs| && i < SLOTS
    requires h == HistoryAt(xs, n - 1, i) && life == State(xs, n - 1)
    requires Valid(life) && Explains(h, life.slots[i])
    requires h.reserved.Noted? ==> h.reserved.time < n - 1
    requires h.contained.Noted? ==> h.contained.time < n - 1
    ensures Explains(HistoryAt(xs, n, i), State(xs, n).slots[i])
  {
    NoteExplains(h, n - 1, life, xs[n - 1], i);
  }

  lemma {:induction false} HistoryExplains(xs: seq<Input>, n: nat, i: u64)
    requires n <= |xs| && i < SLOTS
    ensures Explains(HistoryAt(xs, n, i), State(xs, n).slots[i])
  {
    if n > 0 {
      ExplainStep(xs, n, i, HistoryAt(xs, n - 1, i), State(xs, n - 1)) by {
        HistoryExplains(xs, n - 1, i);
        HistoryPast(xs, n - 1, i);
        RunValid(xs, n - 1);
      }
    }
  }

  // ---------- replacement ordering ----------

  // A slot is reserved at most once in a run.
  lemma ReservedOnce(xs: seq<Input>, p: nat, q: nat, i: u64)
    requires p <= q < |xs| && AcceptedOn(xs, p, RESERVE, i) && AcceptedOn(xs, q, RESERVE, i)
    ensures p == q
  {
    if p < q {
      HistoryLatest(xs, p, q, i);
      HistoryExplains(xs, q, i);
      SlotMoves(State(xs, q), xs[q]);
    }
  }

  // A second worker can be reserved only after the first was contained and then
  // confirmed stopped by the supervisor and drained by the broker, each for that
  // incarnation and the number of requests it had issued, in either order.
  lemma ReplacementOrdering(xs: seq<Input>, p: nat, q: nat, i: u64, j: u64)
    requires p < q < |xs|
    requires AcceptedOn(xs, p, RESERVE, i) && AcceptedOn(xs, q, RESERVE, j)
    ensures i != j
    ensures var h := HistoryAt(xs, q, i);
            && h.contained.Noted? && h.stopped.Noted? && h.drained.Noted?
            && p < h.contained.time && h.contained.time < h.stopped.time < q && h.contained.time < h.drained.time < q
            && AcceptedOn(xs, h.contained.time, CONTAIN, i)
            && AcceptedOn(xs, h.stopped.time, STOPPED, i) && AcceptedOn(xs, h.drained.time, DRAINED, i)
    ensures var h := HistoryAt(xs, q, i);
            var incarnation := Step(State(xs, p), xs[p]).1.value;
            var issued := State(xs, h.contained.time).slots[i].issued;
            && xs[h.contained.time].event.incarnation == incarnation
            && xs[h.stopped.time] == Input(Supervisor, Event(STOPPED, i, incarnation, issued), h.stopped.x.audit)
            && xs[h.drained.time] == Input(Broker, Event(DRAINED, i, incarnation, issued), h.drained.x.audit)
  {
    HistoryExplains(xs, q, i);
    HistoryGenuine(xs, q, i, RESERVE);
    HistoryGenuine(xs, q, i, CONTAIN);
    HistoryGenuine(xs, q, i, STOPPED);
    HistoryGenuine(xs, q, i, DRAINED);
    HistoryLatest(xs, p, q, i);
    ReservedOnce(xs, p, HistoryAt(xs, q, i).reserved.time, i);
    RunValid(xs, q);
    SlotMoves(State(xs, q), xs[q]);
    assert SlotValid(State(xs, q).slots[i], State(xs, q).last);
  }

  // ---------- tickets ----------

  // 1 when the accepted drain, if any, discarded a ticket that was still pending.
  function Abandoned(h: History): nat {
    if h.drained.Noted? && h.drained.pending != 0 then 1 else 0
  }

  // Every ticket issued is completed, outstanding, or abandoned by the drain.
  lemma {:induction false} TicketConservation(xs: seq<Input>, n: nat, i: u64)
    requires n <= |xs| && i < SLOTS
    ensures var s := State(xs, n).slots[i];
            && s.issued == Count(xs, n, BEGIN, i)
            && s.issued == Count(xs, n, COMPLETE, i) + (if s.pending != 0 then 1 else 0) + Abandoned(HistoryAt(xs, n, i))
  {
    hide Step, Valid;
    if n > 0 {
      var before, x := State(xs, n - 1), xs[n - 1];
      TicketConservation(xs, n - 1, i);
      HistoryExplains(xs, n - 1, i);
      StepFrame(before, x);
      if Check(before, x) == Ok { SlotMoves(before, x); }
    }
  }

  // ---------- staleness ----------

  // A slot never moves back, and keeps its incarnation once it has one.
  predicate Onward(s: Slot, t: Slot) {
    && s.state <= t.state && s.issued <= t.issued
    && s.stopped <= t.stopped && s.drained <= t.drained
    && (s.state != UNUSED ==> t.incarnation == s.incarnation)
    && (CLOSING <= s.state ==> t.issued == s.issued)
  }

  lemma StepOnward(life: Life, x: Input, i: u64)
    requires Valid(life) && i < SLOTS
    ensures Onward(life.slots[i], Step(life, x).0.slots[i])
    ensures life.last <= Step(life, x).0.last
  {
    if Check(life, x) == Ok {
      StepFrame(life, x);
      SlotMoves(life, x);
      assert SlotValid(life.slots[i], life.last);
    }
  }

  lemma {:induction false} RunOnward(xs: seq<Input>, m: nat, n: nat, i: u64)
    requires m <= n <= |xs| && i < SLOTS
    ensures Onward(State(xs, m).slots[i], State(xs, n).slots[i])
    ensures State(xs, m).last <= State(xs, n).last
    decreases n
  {
    if m < n {
      RunOnward(xs, m, n - 1, i);
      RunValid(xs, n - 1);
      StepOnward(State(xs, n - 1), xs[n - 1], i);
    }
  }

  // Two slots never carry the same incarnation, not even at different times.
  lemma IncarnationsUnique(xs: seq<Input>, m: nat, n: nat)
    requires m <= |xs| && n <= |xs|
    requires State(xs, m).slots[0].state != UNUSED && State(xs, n).slots[1].state != UNUSED
    ensures State(xs, m).slots[0].incarnation != State(xs, n).slots[1].incarnation
  {
    var top := if m <= n then n else m;
    RunOnward(xs, m, top, 0);
    RunOnward(xs, n, top, 1);
    RunValid(xs, top);
  }

  lemma OneWorkerAllowed(life: Life, i: u64, a: u64, j: u64, b: u64)
    requires Allows(life, i, a) && Allows(life, j, b)
    ensures i == j && a == b
  {
  }

  lemma ClosedForGood(life: Life, i: u64, j: u64)
    requires Valid(life) && i < SLOTS && CLOSING <= life.slots[i].state
    ensures !Allows(life, j, life.slots[i].incarnation)
    ensures j < SLOTS && life.slots[j].incarnation == life.slots[i].incarnation ==> i == j
  {
    assert SlotValid(life.slots[0], life.last) && SlotValid(life.slots[1], life.last);
  }

  // Once contained, an incarnation is never allowed again and every further
  // event that carries it and is accepted is a stop or drain confirmation.
  lemma ContainedForGood(xs: seq<Input>, m: nat, n: nat, i: u64, j: u64)
    requires m <= n <= |xs| && i < SLOTS
    requires CLOSING <= State(xs, m).slots[i].state
    ensures !Allows(State(xs, n), j, State(xs, m).slots[i].incarnation)
    ensures n < |xs| && xs[n].event.incarnation == State(xs, m).slots[i].incarnation
            && Check(State(xs, n), xs[n]) == Ok ==>
              xs[n].event.slot == i && (xs[n].event.op == STOPPED || xs[n].event.op == DRAINED)
  {
    RunOnward(xs, m, n, i);
    RunValid(xs, n);
    RunValid(xs, m);
    assert SlotValid(State(xs, m).slots[i], State(xs, m).last);
    ClosedForGood(State(xs, n), i, j);
    if n < |xs| && Check(State(xs, n), xs[n]) == Ok {
      ClosedForGood(State(xs, n), i, xs[n].event.slot);
      SlotMoves(State(xs, n), xs[n]);
    }
  }

  // ---------- termination ----------

  // Phases and confirmations still to come, and tickets still to issue and settle.
  function Fuel(s: Slot): int {
    (RETIRED - s.state) + (1 - s.stopped) + (1 - s.drained)
    + 2 * (U64_MAX - s.issued) + (if s.pending != 0 then 1 else 0)
  }

  function Measure(life: Life): int { Fuel(life.slots[0]) + Fuel(life.slots[1]) }

  lemma AcceptedDecreases(life: Life, x: Input)
    requires Check(life, x) == Ok
    ensures 0 <= Measure(Step(life, x).0) < Measure(life)
  {
    var i := x.event.slot;
    StepFrame(life, x);
    SlotMoves(life, x);
    assert SlotValid(life.slots[1 - i], life.last);
    assert Step(life, x).0.slots[1 - i] == life.slots[1 - i];
    assert 0 <= Fuel(Step(life, x).0.slots[i]) < Fuel(life.slots[i]);
  }

  function AcceptedTotal(xs: seq<Input>, n: nat): nat
    requires n <= |xs|
  {
    if n == 0 then 0
    else AcceptedTotal(xs, n - 1) + if Check(State(xs, n - 1), xs[n - 1]) == Ok then 1 else 0
  }

  lemma {:induction false} AcceptedBounded(xs: seq<Input>, n: nat)
    requires n <= |xs|
    ensures AcceptedTotal(xs, n) + Measure(State(xs, n)) <= 14 + 4 * U64_MAX
    ensures AcceptedTotal(xs, n) <= 14 + 4 * U64_MAX
  {
    if n > 0 {
      AcceptedBounded(xs, n - 1);
      if Check(State(xs, n - 1), xs[n - 1]) == Ok {
        AcceptedDecreases(State(xs, n - 1), xs[n - 1]);
      }
    }
  }
}

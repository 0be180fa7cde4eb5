// What the mailbox-driven supervisor does on each entry and answers to each request,
// in every state its runs reach.

module ContainmentOutcomes {
  import opened Words
  import opened Lifecycle
  import opened LifecycleOutcomes
  import opened Reduction
  import opened LifecycleSupervisor
  import opened Messages
  import opened Containment

  // In service, between two entries.
  predicate AtRest(sp: Sp) { Safe(sp) && !sp.failed }

  predicate Going(sp: Sp, i: u64) { if i == 0 then sp.running.0 else sp.running.1 }

  // Observing the mailbox closes and stops exactly the live slots it asks for, an
  // unknown bit standing for both; a notification also receipts them.
  lemma SyncOutcome(sp: Sp, sample: Bits, notification: bool, i: u64)
    requires AtRest(sp) && i < SLOTS
    ensures var asked := i in sample || exists b :: b in sample && b >= SLOTS;
            var s, (next, ok) := sp.control.life.slots[i], Synced(sp, sample, notification);
            var caught := asked && STARTING <= s.state <= ACTIVE;
            && ok && AtRest(next) && next.control.life.last == sp.control.life.last && next.resumes == sp.resumes
            && next.control.life.slots[i] == (if caught then s.(state := CLOSING, stopped := 1) else s)
            && Going(next, i) == (STARTING <= s.state <= ACTIVE && !asked)
            && (i in next.control.inhibited <==> i in sp.control.inhibited || asked)
            && (i in next.receipt <==> i in sp.receipt || (notification && caught))
  {
    SyncedSafe(sp, sample, notification);
    assert SlotValid(sp.control.life.slots[i], sp.control.life.last);
    if IsMalformed(sample) {
      var b :| b in sample && b !in ALL;
      assert b >= SLOTS;
    }
    assert Plain(sp.control.life.slots[i]);
  }

  // An empty mailbox changes nothing.
  lemma QuietSync(sp: Sp)
    requires AtRest(sp)
    ensures Synced(sp, {}, false) == (sp, true)
  {
    QuietPoll(sp.control);
    assert AllSettled(sp.control.life) == sp.control.life;
    assert StopMask(sp.control) == {};
  }

  function Told(status: u64, value: u64): Message { Message(CT_RESULT, [status, value]) }

  function WithSlot(sp: Sp, i: u64, s: Slot): Sp
    requires i < SLOTS
  {
    sp.(control := sp.control.(life := sp.control.life.(slots := sp.control.life.slots[i := s])))
  }

  // What a request finds: the state after one more observation of the mailbox.
  function Seen(sp: Sp, sample: Bits): Sp { Synced(sp, sample, false).0 }

  lemma SeenAtRest(sp: Sp, sample: Bits)
    requires AtRest(sp)
    ensures AtRest(Seen(sp, sample)) && Synced(sp, sample, false).1
  {
    SyncedSafe(sp, sample, false);
  }

  lemma Lawful(sp: Sp, x: Input)
    requires AtRest(sp)
    ensures Apply(sp.control, {}, x) ==
              if (x.event.op == RESERVE || x.event.op == ACTIVATE) && x.event.slot < SLOTS
                && x.event.slot in sp.control.inhibited
              then (sp.control, Result(Denied, 0))
              else (sp.control.(life := Step(sp.control.life, x).0), Step(sp.control.life, x).1)
    ensures Valid(sp.control.life)
  {
    hide Step;
    QuietPoll(sp.control);
  }

  // Selecting a worker that no one has asked to stop lets it run.
  lemma ReserveAnswer(sp: Sp, sample: Bits, i: u64)
    requires AtRest(sp) && i < SLOTS
    ensures var seen := Seen(sp, sample);
            var life, inc := seen.control.life, seen.control.life.last + 1;
            CtServed(sp, 0, Message(CT_CONTROL, [RESERVE, i]), sample) ==
              if i in seen.control.inhibited then (seen, Told(2, 0))
              else if life.slots[i].state != UNUSED || life.slots[1 - i].Occupied() then (seen, Told(4, 0))
              else if life.last == U64_MAX then (seen, Told(6, 0))
              else
                (seen.(control := seen.control.(life := Life(inc, life.slots[i := Slot(STARTING, inc, 0, 0, 0, 0)])),
                       running := (i == 0 || seen.running.0, i == 1 || seen.running.1), resumes := seen.resumes + 1),
                 Told(0, inc))
  {
    hide Step, Synced, Safe, Valid, Apply;
    SeenAtRest(sp, sample);
    var seen := Seen(sp, sample);
    Lawful(seen, Input(Admin, Event(RESERVE, i, 0, 0), true));
    ReserveOutcome(seen.control.life, i, true);
  }

  lemma UnusedUnnamed(life: Life, i: u64)
    requires Valid(life) && i < SLOTS
    ensures life.slots[i].state == UNUSED <==> life.slots[i].incarnation == 0
  {
    assert SlotValid(life.slots[i], life.last);
  }

  lemma ActivateAnswer(sp: Sp, sample: Bits, i: u64)
    requires AtRest(sp) && i < SLOTS
    ensures var seen := Seen(sp, sample);
            var s := seen.control.life.slots[i];
            CtServed(sp, 0, Message(CT_CONTROL, [ACTIVATE, i]), sample) ==
              if i in seen.control.inhibited then (seen, Told(2, 0))
              else if s.state == UNUSED then (seen, Told(1, 0))
              else if s.state != READY then (seen, Told(4, 0))
              else (WithSlot(seen, i, s.(state := ACTIVE)), Told(0, s.incarnation))
  {
    hide Step, Synced, Safe, Valid, Apply;
    SeenAtRest(sp, sample);
    var seen := Seen(sp, sample);
    var s := seen.control.life.slots[i];
    Lawful(seen, Input(Admin, Event(ACTIVATE, i, s.incarnation, 0), true));
    UnusedUnnamed(seen.control.life, i);
    if s.state == UNUSED {
      UnnamedOutcome(seen.control.life, Input(Admin, Event(ACTIVATE, i, 0, 0), true));
    } else {
      ActivateOutcome(seen.control.life, i, true);
    }
  }

  lemma ReadyAnswer(sp: Sp, sample: Bits, i: u64)
    requires AtRest(sp) && i < SLOTS
    ensures var seen := Seen(sp, sample);
            var s := seen.control.life.slots[i];
            CtServed(sp, 1, Message(CT_READY, [i]), sample) ==
              if s.state == UNUSED then (seen, Told(1, 0))
              else if s.state != STARTING then (seen, Told(4, 0))
              else (WithSlot(seen, i, s.(state := READY)), Told(0, s.incarnation))
  {
    hide Step, Synced, Safe, Valid, Apply;
    SeenAtRest(sp, sample);
    var seen := Seen(sp, sample);
    var s := seen.control.life.slots[i];
    Lawful(seen, Input(Actor.Supervisor, Event(STARTED, i, s.incarnation, 0), false));
    UnusedUnnamed(seen.control.life, i);
    if s.state == UNUSED {
      UnnamedOutcome(seen.control.life, Input(Actor.Supervisor, Event(STARTED, i, 0, 0), false));
    } else {
      StartedOutcome(seen.control.life, i, false);
    }
  }

  // Work is admitted exactly for the active incarnation with no ticket out.
  lemma BeginAnswer(sp: Sp, sample: Bits, i: u64, incarnation: u64)
    requires AtRest(sp) && i < SLOTS
    ensures var seen := Seen(sp, sample);
            var s := seen.control.life.slots[i];
            CtServed(sp, 1, Message(CT_BEGIN, [i, incarnation]), sample) ==
              if incarnation == 0 then (seen, Told(1, 0))
              else if incarnation != s.incarnation then (seen, Told(3, 0))
              else if s.state != ACTIVE || s.pending != 0 then (seen, Told(4, 0))
              else if s.issued == U64_MAX then (seen, Told(6, 0))
              else (WithSlot(seen, i, s.(issued := s.issued + 1, pending := s.issued + 1)), Told(0, s.issued + 1))
  {
    hide Step, Synced, Safe, Valid, Apply;
    SeenAtRest(sp, sample);
    var seen := Seen(sp, sample);
    var life, x := seen.control.life, Input(Actor.Broker, Event(BEGIN, i, incarnation, 0), false);
    Lawful(seen, x);
    UnusedUnnamed(life, i);
    if incarnation == 0 {
      UnnamedOutcome(life, x);
    } else if incarnation != life.slots[i].incarnation {
      StaleOutcome(life, x);
    } else {
      BeginOutcome(life, i, false);
    }
  }

  // The two read-only requests answer with the state itself.
  lemma StatusAnswer(sp: Sp, sample: Bits)
    requires AtRest(sp)
    ensures var seen := Seen(sp, sample);
            var (next, reply) := CtServed(sp, 0, Message(CT_STATUS, []), sample);
            && next == seen && reply.tag == CT_SNAPSHOT && |reply.words| == 16
            && reply.words[0] == 0 && reply.words[2] == seen.control.inputFault && reply.words[3] == seen.control.life.last
            && reply.words[1] < 4 && (reply.words[1] % 2 == 1 <==> 0 in seen.control.inhibited)
            && (reply.words[1] >= 2 <==> 1 in seen.control.inhibited)
            && Slot(reply.words[4], reply.words[5], reply.words[6], reply.words[7], reply.words[8], reply.words[9])
               == seen.control.life.slots[0]
            && Slot(reply.words[10], reply.words[11], reply.words[12], reply.words[13], reply.words[14], reply.words[15])
               == seen.control.life.slots[1]
  {
    SeenAtRest(sp, sample);
  }

  lemma ViewAnswer(sp: Sp, sample: Bits, i: u64)
    requires AtRest(sp) && i < SLOTS
    ensures var seen := Seen(sp, sample);
            var (next, reply) := CtServed(sp, 1, Message(CT_VIEW, [i]), sample);
            && next == seen && reply.tag == CT_SLOT && |reply.words| == 6
            && seen.control.life.slots[i] ==
                 Slot(reply.words[0], reply.words[1], reply.words[2], reply.words[3], reply.words[4], reply.words[5])
  {
    SeenAtRest(sp, sample);
  }

  // Each channel has its own requests; any other message is denied, and there is
  // none to drain a worker or confirm its stop. Nothing is served after a failure.
  lemma OtherAnswer(sp: Sp, ch: u64, m: Message, sample: Bits)
    ensures sp.failed ==> CtServed(sp, ch, m, sample) == (sp, Told(99, 0))
    ensures AtRest(sp) && ch == 0 && !Is(m, CT_STATUS, 0) && !Is(m, CT_CONTROL, 2) ==>
              CtServed(sp, ch, m, sample) == (Seen(sp, sample), Told(2, 0))
    ensures AtRest(sp) && ch == 0 && Is(m, CT_CONTROL, 2) && (m.words[1] >= SLOTS || m.words[0] !in {RESERVE, ACTIVATE}) ==>
              CtServed(sp, ch, m, sample) == (Seen(sp, sample), Told(1, 0))
    ensures AtRest(sp) && ch == 1 && !Is(m, CT_READY, 1) && !Is(m, CT_VIEW, 1) && !Is(m, CT_BEGIN, 2) ==>
              CtServed(sp, ch, m, sample) == (Seen(sp, sample), Told(2, 0))
    ensures AtRest(sp) && (ch > 1 || (ch == 1 && m.words != [] && m.words[0] >= SLOTS)) ==>
              CtServed(sp, ch, m, sample) == (Seen(sp, sample), Told(2, 0))
  {
    hide Apply, Step, Valid, Poll, AllSettled, StopMask;
    if AtRest(sp) { SeenAtRest(sp, sample); }
  }
}

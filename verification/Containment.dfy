// tests/containment/supervisor.c: a supervisor driven by a reduction mailbox any
// writer may set, and its notification-only receipt word.

module Containment {
  import opened Words
  import opened Lifecycle
  import opened LifecycleRuns
  import opened Reduction
  import opened LifecycleSupervisor
  import opened Messages

  const CT_CONTROL: u64 := 0x810
  const CT_STATUS: u64 := 0x811
  const CT_READY: u64 := 0x812
  const CT_BEGIN: u64 := 0x813
  const CT_VIEW: u64 := 0x814
  const CT_RESULT: u64 := 0x880
  const CT_SNAPSHOT: u64 := 0x881
  const CT_SLOT: u64 := 0x882

  // `running` and `resumes` are not in the program: which worker the kernel would
  // let run, and how often it was asked to let one run.
  datatype Sp = Sp(control: Control, ready: bool, failed: bool, receipt: Bits, running: (bool, bool), resumes: nat)

  function CtReply(r: Result): Message { Message(CT_RESULT, [Word(r.status), r.value]) }

  const CT_FAILED: Message := Message(CT_RESULT, [FAILURE, 0])

  function MaskWord(bits: Bits): u64 { (if 0 in bits then 1 else 0) + (if 1 in bits then 2 else 0) }

  function SpFailed(sp: Sp): Sp { sp.(failed := true, running := (false, false)) }

  // Every closing slot whose stop was not yet recorded has it recorded now.
  function Settled(s: Slot): Slot { if Stopping(s) then Confirmed(s.(stopped := 1)) else s }

  function AllSettled(life: Life): Life { Life(life.last, [Settled(life.slots[0]), Settled(life.slots[1])]) }

  function Synced(sp: Sp, sample: Bits, notification: bool): (Sp, bool) {
    if !sp.ready || sp.failed then (sp, false)
    else if !RdValid(sp.control) then (SpFailed(sp), false)
    else
      var polled := Poll(sp.control, sample).0;
      var stops := StopMask(polled);
      (sp.(control := polled.(life := AllSettled(polled.life)),
           running := (sp.running.0 && 0 !in stops, sp.running.1 && 1 !in stops),
           receipt := if notification then sp.receipt + stops else sp.receipt), true)
  }

  function Ruled(sp: Sp, x: Input): (Sp, Message) {
    var (control, r) := Apply(sp.control, {}, x);
    (sp.(control := control), CtReply(r))
  }

  function Requested(sp: Sp, ch: u64, m: Message): (Sp, Message) {
    var count := |m.words|;
    var a, b := if count > 0 then m.words[0] else 0, if count > 1 then m.words[1] else 0;
    var slots := sp.control.life.slots;
    if ch == 0 && m.tag == CT_STATUS && count == 0 then
      (sp, Message(CT_SNAPSHOT, [if sp.failed then 1 else 0, MaskWord(sp.control.inhibited), sp.control.inputFault,
                                 sp.control.life.last] + SlotWords(slots[0]) + SlotWords(slots[1])))
    else if ch == 0 && m.tag == CT_CONTROL && count == 2 then
      if b >= SLOTS || (a != RESERVE && a != ACTIVATE) then (sp, CtReply(Result(Invalid, 0)))
      else
        var x := Input(Admin, Event(a, b, if a == RESERVE then 0 else slots[b].incarnation, 0), true);
        var (next, reply) := Ruled(sp, x);
        (if reply.words[0] == 0 && a == RESERVE then
           next.(running := Halted(sp.running, b, true), resumes := sp.resumes + 1) else next, reply)
    else if ch == 1 && a < SLOTS && (m.tag == CT_READY || m.tag == CT_VIEW) && count == 1 then
      if m.tag == CT_VIEW then (sp, Message(CT_SLOT, SlotWords(slots[a])))
      else Ruled(sp, Input(Actor.Supervisor, Event(STARTED, a, slots[a].incarnation, 0), false))
    else if ch == 1 && m.tag == CT_BEGIN && count == 2 && a < SLOTS then
      Ruled(sp, Input(Actor.Broker, Event(BEGIN, a, b, 0), false))
    else (sp, CtReply(Result(Denied, 0)))
  }

  function CtServed(sp: Sp, ch: u64, m: Message, sample: Bits): (Sp, Message) {
    var (next, ok) := Synced(sp, sample, false);
    if !ok then (next, CT_FAILED) else Requested(next, ch, m)
  }

  // ---------- runs ----------

  // Each entry reads the mailbox once; `sample` is whatever it holds then, in
  // whatever way its writers set or cleared it.
  datatype Entry = Notified(ch: u64, sample: Bits) | Called(ch: u64, m: Message, sample: Bits) | FaultEntry

  function Entered(sp: Sp, e: Entry): Sp {
    match e
    case Notified(ch, sample) => if ch == 0 then Synced(sp, sample, true).0 else sp
    case Called(ch, m, sample) => CtServed(sp, ch, m, sample).0
    case FaultEntry => SpFailed(sp)
  }

  const COLD := Sp(FRESH, true, false, {}, (false, false), 0)

  function After(sample: Bits, entries: seq<Entry>, n: nat): Sp
    requires n <= |entries|
  {
    if n == 0 then Synced(COLD, sample, false).0 else Entered(After(sample, entries, n - 1), entries[n - 1])
  }

  // A slot in this profile is never drained, and at rest never waits for a stop.
  predicate Plain(s: Slot) { s.drained == 0 && !Stopping(s) }

  predicate Safe(sp: Sp) {
    && sp.ready && RdValid(sp.control)
    && Plain(sp.control.life.slots[0]) && Plain(sp.control.life.slots[1])
    && (sp.failed ==> sp.running == (false, false))
    && (!sp.failed ==> sp.running == (sp.control.life.slots[0].Live(), sp.control.life.slots[1].Live()))
    && sp.resumes == (if sp.control.life.slots[0].state != UNUSED then 1 else 0)
                     + (if sp.control.life.slots[1].state != UNUSED then 1 else 0)
    && (forall i | i in sp.receipt :: i < SLOTS && sp.control.life.slots[i].state == CLOSING)
  }

  lemma SyncedSafe(sp: Sp, sample: Bits, notification: bool)
    requires Safe(sp)
    ensures Safe(Synced(sp, sample, notification).0)
    ensures sp.receipt <= Synced(sp, sample, notification).0.receipt
  {
    PollValid(sp.control, sample);
  }

  lemma RuledSafe(sp: Sp, x: Input)
    requires Safe(sp) && !sp.failed && x.event.op != CONTAIN && x.event.op != STOPPED && x.event.op != DRAINED
    ensures var next := Ruled(sp, x).0;
            var granted := Apply(sp.control, {}, x).1.status == Ok && x.event.op == RESERVE;
            Safe(if granted then next.(running := Halted(sp.running, x.event.slot, true), resumes := sp.resumes + 1)
                 else next)
  {
    hide Step;
    QuietPoll(sp.control);
    ApplyValid(sp.control, {}, x);
    StepFrame(sp.control.life, x);
    if Check(sp.control.life, x) == Ok { SlotMoves(sp.control.life, x); }
  }

  lemma RequestedSafe(sp: Sp, ch: u64, m: Message)
    requires Safe(sp) && !sp.failed
    ensures Safe(Requested(sp, ch, m).0) && Requested(sp, ch, m).0.receipt == sp.receipt
  {
    hide Apply, Safe;
    var slots := sp.control.life.slots;
    if |m.words| == 2 && m.words[1] < SLOTS {
      var a, b := m.words[0], m.words[1];
      if a == RESERVE || a == ACTIVATE {
        RuledSafe(sp, Input(Admin, Event(a, b, if a == RESERVE then 0 else slots[b].incarnation, 0), true));
      }
    }
    if |m.words| == 2 { RuledSafe(sp, Input(Actor.Broker, Event(BEGIN, m.words[0], m.words[1], 0), false)); }
    if |m.words| == 1 && m.words[0] < SLOTS {
      RuledSafe(sp, Input(Actor.Supervisor, Event(STARTED, m.words[0], slots[m.words[0]].incarnation, 0), false));
    }
  }

  lemma EnteredSafe(sp: Sp, e: Entry)
    requires Safe(sp)
    ensures Safe(Entered(sp, e)) && sp.receipt <= Entered(sp, e).receipt
  {
    if e.Notified? { SyncedSafe(sp, e.sample, true); }
    if e.Called? {
      SyncedSafe(sp, e.sample, false);
      var next := Synced(sp, e.sample, false).0;
      if !next.failed { RequestedSafe(next, e.ch, e.m); }
    }
  }

  lemma ColdSafe()
    ensures Safe(COLD)
  {
  }

  // In every run the physical state follows the model, nothing is ever drained,
  // and every receipt bit names a slot whose recorded stop has happened.
  lemma {:induction false} RunSafe(sample: Bits, entries: seq<Entry>, n: nat)
    requires n <= |entries|
    ensures Safe(After(sample, entries, n))
  {
    hide Entered, Safe;
    if n > 0 {
      RunSafe(sample, entries, n - 1);
      EnteredSafe(After(sample, entries, n - 1), entries[n - 1]);
    } else {
      assert Safe(COLD) by { ColdSafe(); }
      SyncedSafe(COLD, sample, false);
    }
  }

  // At most one resume ever happens in a run.
  lemma OneResume(sample: Bits, entries: seq<Entry>, n: nat)
    requires n <= |entries|
    ensures After(sample, entries, n).resumes <= 1
    ensures !(After(sample, entries, n).running.0 && After(sample, entries, n).running.1)
  {
    hide Entered;
    RunSafe(sample, entries, n);
  }

  // A receipt bit is permanent, and its worker never runs again.
  lemma {:induction false} ReceiptMeansStopped(sample: Bits, entries: seq<Entry>, m: nat, n: nat, i: nat)
    requires m <= n <= |entries| && i in After(sample, entries, m).receipt
    ensures var sp := After(sample, entries, n);
            i in sp.receipt && i < SLOTS && !(if i == 0 then sp.running.0 else sp.running.1)
    decreases n
  {
    hide Entered;
    if m < n {
      ReceiptMeansStopped(sample, entries, m, n - 1, i);
      RunSafe(sample, entries, n - 1);
      EnteredSafe(After(sample, entries, n - 1), entries[n - 1]);
    }
    RunSafe(sample, entries, n);
  }

  // Only a notification adds receipt bits, and it adds exactly the slots that
  // were live and are inhibited by this observation.
  lemma ReceiptOnlyByNotification(sp: Sp, e: Entry)
    requires Safe(sp)
    ensures var next := Entered(sp, e);
            next.receipt == sp.receipt + (set i: nat | i < SLOTS && e.Notified? && e.ch == 0 && !sp.failed
                                                      && sp.control.life.slots[i].Live() && i in next.control.inhibited)
  {
    if e.Called? {
      SyncedSafe(sp, e.sample, false);
      var next := Synced(sp, e.sample, false).0;
      if !next.failed { RequestedSafe(next, e.ch, e.m); }
    } else if e.Notified? {
      PollValid(sp.control, e.sample);
    }
  }

  // Recording the stop of a closing slot always succeeds.
  lemma StopRecorded(c: Control, i: u64)
    requires RdValid(c) && i < SLOTS && Stopping(c.life.slots[i])
    ensures var s := c.life.slots[i];
            var (next, r) := Apply(c, {}, Input(Actor.Supervisor, Event(STOPPED, i, s.incarnation, s.issued), false));
            && r.status == Ok && RdValid(next)
            && next == c.(life := Life(c.life.last, c.life.slots[i := Settled(s)]))
  {
    var s := c.life.slots[i];
    var x := Input(Actor.Supervisor, Event(STOPPED, i, s.incarnation, s.issued), false);
    assert SlotValid(s, c.life.last);
    QuietPoll(c);
    ApplyValid(c, {}, x);
  }

  // ---------- the C code ----------

  class Keeper {
    const mailbox: Mailbox
    const control: ReductionOwner
    var ready: bool
    var failed: bool
    var receipt: Bits
    ghost var running: (bool, bool)
    ghost var resumes: nat

    constructor (mailbox: Mailbox)
      ensures this.mailbox == mailbox && fresh(control)
      ensures View() == Sp(FRESH, false, false, {}, (true, true), 0)
    {
      this.mailbox := mailbox;
      control := new ReductionOwner(FRESH);
      ready, failed, receipt, running, resumes := false, false, {}, (true, true), 0;
    }

    ghost function View(): Sp
      reads this, control
    {
      Sp(control.control, ready, failed, receipt, running, resumes)
    }

    method PdStop(child: u64)
      requires 1 <= child <= SLOTS
      modifies this`running
      ensures running == Halted(old(running), child - 1, false)
    {
      running := Halted(running, child - 1, false);
    }

    method PdResume(child: u64)
      requires 1 <= child <= SLOTS
      modifies this`running, this`resumes
      ensures running == Halted(old(running), child - 1, true) && resumes == old(resumes) + 1
    {
      running := Halted(running, child - 1, true);
      resumes := resumes + 1;
    }

    method Fail()
      modifies this
      ensures View() == SpFailed(old(View()))
    {
      failed := true;
      PdStop(1);
      PdStop(2);
    }

    method Sync(notification: bool) returns (ok: bool)
      modifies this, control
      ensures (View(), ok) == Synced(old(View()), mailbox.requests, notification)
    {
      if !ready || failed { return false; }
      if RdValid(control.control) { PollValid(control.control, mailbox.requests); }
      var sample := mailbox.Sample();
      var status := control.PollOwner(sample);
      if status == InvalidState {
        Fail();
        return false;
      }
      ghost var polled := control.control;
      var stops := control.StopMaskOwner();
      var i := 0;
      while i < 2
        invariant 0 <= i <= 2 && ready && !failed && receipt == old(receipt) && resumes == old(resumes)
        invariant RdValid(control.control)
        invariant control.control == polled.(life := Life(polled.life.last,
                    [if 0 < i then Settled(polled.life.slots[0]) else polled.life.slots[0],
                     if 1 < i then Settled(polled.life.slots[1]) else polled.life.slots[1]]))
        invariant running == (old(running).0 && !(0 < i && 0 in stops), old(running).1 && !(1 < i && 1 in stops))
      {
        if i in stops {
          var s := control.control.life.slots[i];
          ghost var before := control.control;
          PdStop(i + 1);
          var r := control.ApplyOwner({}, Actor.Supervisor, Event(STOPPED, i, s.incarnation, s.issued), false);
          if r.status != Ok {
            Fail();
            StopRecorded(before, i);
            return false;
          }
          StopRecorded(before, i);
        }
        i := i + 1;
      }
      assert stops == {} ==> receipt + stops == receipt;
      if notification && stops != {} { receipt := receipt + stops; }
      return true;
    }

    method Init()
      modifies this, control
      ensures View() == if old(ready) then SpFailed(old(View()))
                        else Synced(old(View()).(ready := true, running := (false, false)), mailbox.requests, false).0
    {
      if ready {
        Fail();
        return;
      }
      PdStop(1);
      PdStop(2);
      ready := true;
      var ok := Sync(false);
    }

    method HandleNotified(ch: u64)
      modifies this, control
      ensures View() == Entered(old(View()), Notified(ch, mailbox.requests))
    {
      if ch == 0 { var ok := Sync(true); }
    }

    method HandleFault() returns (resume: bool)
      modifies this
      ensures !resume && View() == Entered(old(View()), FaultEntry)
    {
      Fail();
      return false;
    }

    method ApplyEvent(actor: Actor, op: u64, slot: u64, incarnation: u64, audit: bool) returns (r: Result)
      modifies control
      ensures (control.control, r) == Apply(old(control.control), {}, Input(actor, Event(op, slot, incarnation, 0), audit))
    {
      r := control.ApplyOwner({}, actor, Event(op, slot, incarnation, 0), audit);
    }

    method Protected(ch: u64, m: Message) returns (reply: Message)
      modifies this, control
      ensures (View(), reply) == CtServed(old(View()), ch, m, mailbox.requests)
    {
      var tag, count := m.tag, |m.words|;
      var a := if count > 0 then m.words[0] else 0;
      var b := if count > 1 then m.words[1] else 0;
      var ok := Sync(false);
      if !ok { return CT_FAILED; }
      var life := control.control.life;
      if ch == 0 && tag == CT_STATUS && count == 0 {
        var words := [if failed then 1 else 0, MaskWord(control.control.inhibited), control.control.inputFault, life.last];
        return Message(CT_SNAPSHOT, words + SlotWords(life.slots[0]) + SlotWords(life.slots[1]));
      }
      if ch == 0 && tag == CT_CONTROL && count == 2 {
        if b >= 2 || (a != RESERVE && a != ACTIVATE) { return CtReply(Result(Invalid, 0)); }
        var r := ApplyEvent(Admin, a, b, if a == RESERVE then 0 else life.slots[b].incarnation, true);
        if r.status == Ok && a == RESERVE { PdResume(b + 1); }
        return CtReply(r);
      }
      if ch == 1 && a < 2 && (tag == CT_READY || tag == CT_VIEW) && count == 1 {
        if tag == CT_VIEW { return Message(CT_SLOT, SlotWords(life.slots[a])); }
        var r := ApplyEvent(Actor.Supervisor, STARTED, a, life.slots[a].incarnation, false);
        return CtReply(r);
      }
      if ch == 1 && tag == CT_BEGIN && count == 2 && a < 2 {
        var r := ApplyEvent(Actor.Broker, BEGIN, a, b, false);
        return CtReply(r);
      }
      return CtReply(Result(Denied, 0));
    }
  }
}

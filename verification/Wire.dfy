// The protected calls of the terminal, in order, with the replies the world gives
// them: what they say about its input and output, and, when the serial driver
// answers from the ring, where the bytes of every request came from.

module Wire {
  import opened Words
  import opened Codec
  import opened Messages
  import opened Policy
  import opened AuditServer
  import opened Serial
  import opened LineEditor
  import opened SignedInput
  import opened Commands
  import opened Console
  import opened TerminalText
  import A = Admin
  import S = AdminServer

  const SERIAL_READ: u64 := 0x130
  const SERIAL_WRITE: u64 := 0x131
  const SERIAL_DATA: u64 := 0x181

  const READ_CALL := Message(SERIAL_READ, [])

  // World k answers call k.
  type World = nat -> Message

  // The message words of a piece of text.
  function Encoded(text: string): (words: seq<u64>)
    ensures |words| == |text|
  {
    seq(|text|, i requires 0 <= i < |text| => text[i] as int % 256)
  }

  lemma EncodedMore(text: string, more: string, n: nat)
    requires n <= |more|
    ensures Encoded(text + more[..n]) == Encoded(text) + Encoded(more)[..n]
  {
  }

  predicate GoodWrite(reply: Message, count: nat) {
    TcsResponse(reply).status == OK && TcsResponse(reply).value <= count
  }

  predicate GoodRead(reply: Message) {
    Is(reply, SERIAL_DATA, 2) && reply.words[0] <= 3 && reply.words[1] <= 255
    && (reply.words[0] % 2 == 0 ==> reply.words[1] == 0)
  }

  predicate NoByte(reply: Message) { GoodRead(reply) && reply.words[0] % 2 == 0 }

  // Bit 1 of the flags reports a loss, bit 0 a byte.
  function ItemsOf(reply: Message): seq<Item>
    requires GoodRead(reply)
  {
    (if reply.words[0] >= 2 then [Hole] else []) + if reply.words[0] % 2 == 1 then [Got(reply.words[1])] else []
  }

  // What the driver's SERIAL_READ answers for a take (servers/serial.c).
  function ReadReply(rx: Rx): Message {
    Message(SERIAL_DATA, [(if rx.lost then 2 else 0) + (if rx.queue != [] then 1 else 0),
                          if rx.queue != [] then rx.queue[0] else 0])
  }

  // What reading this reply appends: the loss message, then the echo.
  function ReadAppends(c: Console, reply: Message): string
    requires GoodRead(reply)
  {
    var lost := reply.words[0] >= 2;
    var after := if lost then Consumed(c, Hole).0 else c;
    (if lost then LOSS_TEXT else "")
    + if reply.words[0] % 2 == 1 then Chars(Consumed(after, Got(reply.words[1])).2) else ""
  }

  // The terminal accepts every honest reply and reads from it what was taken.
  lemma HonestRead(rx: Rx)
    ensures GoodRead(ReadReply(rx)) && ItemsOf(ReadReply(rx)) == Delivered(rx)
  {
  }

  // ---------- the record of calls ----------

  function HeardIn(m: Message, reply: Message): seq<Item> {
    if m == READ_CALL && GoodRead(reply) then ItemsOf(reply) else []
  }

  function Heard(world: World, wire: seq<Message>): seq<Item>
    decreases |wire|
  {
    if wire == [] then []
    else
      var n := |wire| - 1;
      Heard(world, wire[..n]) + HeardIn(wire[n], world(n))
  }

  function AcceptedIn(m: Message, reply: Message): seq<u64> {
    if m.tag == SERIAL_WRITE && GoodWrite(reply, |m.words|) then m.words[..TcsResponse(reply).value] else []
  }

  // The words the driver accepted for output.
  function Accepted(world: World, wire: seq<Message>): seq<u64>
    decreases |wire|
  {
    if wire == [] then []
    else
      var n := |wire| - 1;
      Accepted(world, wire[..n]) + AcceptedIn(wire[n], world(n))
  }

  predicate ToDriver(m: Message) { m.tag == SERIAL_READ || m.tag == SERIAL_WRITE }

  // The calls to the client and the administrator.
  function Asked(wire: seq<Message>): seq<Message>
    decreases |wire|
  {
    if wire == [] then []
    else
      var n := |wire| - 1;
      Asked(wire[..n]) + if ToDriver(wire[n]) then [] else [wire[n]]
  }

  ghost function CallsOf(acts: seq<Action>): seq<Message>
    decreases |acts|
  {
    if acts == [] then []
    else
      var n := |acts| - 1;
      CallsOf(acts[..n]) + if Proven(acts[n]) then ActionCalls(acts[n]) else []
  }

  // The items taken, the words sent and the calls made are those on record.
  ghost predicate OnRecord(world: World, wire: seq<Message>, items: seq<Item>, acts: seq<Action>, sent: seq<u64>) {
    items == Heard(world, wire) && sent == Accepted(world, wire) && Asked(wire) == CallsOf(acts)
  }

  lemma OnRecordCall(world: World, wire: seq<Message>, items: seq<Item>, acts: seq<Action>, sent: seq<u64>, m: Message)
    requires OnRecord(world, wire, items, acts, sent) && ToDriver(m)
    ensures var reply := world(|wire|);
            OnRecord(world, wire + [m], items + HeardIn(m, reply), acts, sent + AcceptedIn(m, reply))
  {
    assert (wire + [m])[..|wire|] == wire;
  }

  lemma CallShape(act: Action)
    requires Proven(act)
    ensures |ActionCalls(act)| <= 1 && forall m :: m in ActionCalls(act) ==> !ToDriver(m)
  {
  }

  lemma OtherCall(world: World, wire: seq<Message>, m: Message)
    requires !ToDriver(m)
    ensures Heard(world, wire + [m]) == Heard(world, wire) && Accepted(world, wire + [m]) == Accepted(world, wire)
    ensures Asked(wire + [m]) == Asked(wire) + [m]
  {
    assert (wire + [m])[..|wire|] == wire;
  }

  lemma MoreActs(acts: seq<Action>, act: Action)
    requires Proven(act)
    ensures CallsOf(acts + [act]) == CallsOf(acts) + ActionCalls(act)
  {
    hide ActionCalls;
    assert (acts + [act])[..|acts|] == acts;
  }

  lemma OnRecordAct(world: World, wire: seq<Message>, items: seq<Item>, acts: seq<Action>,
                    sent: seq<u64>, act: Action)
    requires OnRecord(world, wire, items, acts, sent) && Proven(act)
    ensures OnRecord(world, wire + ActionCalls(act), items, acts + [act], sent)
  {
    hide ActionCalls, Heard, Accepted, Asked, CallsOf, Proven, ToDriver;
    var calls := ActionCalls(act);
    CallShape(act);
    MoreActs(acts, act);
    if calls == [] {
      assert wire + calls == wire && Asked(wire) + calls == Asked(wire);
    } else {
      assert calls[0] in calls && calls == [calls[0]];
      OtherCall(world, wire, calls[0]);
    }
  }

  // A reply the driver's contract does not allow.
  predicate Faulty(m: Message, reply: Message) {
    || (m == READ_CALL && !GoodRead(reply))
    || (m.tag == SERIAL_WRITE && !GoodWrite(reply, |m.words|))
  }

  ghost predicate Blames(world: World, wire: seq<Message>, k: nat) { k < |wire| && Faulty(wire[k], world(k)) }

  // Some reply on record is malformed.
  ghost predicate Blamed(world: World, wire: seq<Message>) { exists k: nat :: Blames(world, wire, k) }

  lemma BlamedCall(world: World, wire: seq<Message>, m: Message)
    ensures Blamed(world, wire + [m]) <==> Blamed(world, wire) || Faulty(m, world(|wire|))
  {
    hide Faulty;
    if k: nat :| Blames(world, wire, k) {
      assert Blames(world, wire + [m], k);
    }
    if Faulty(m, world(|wire|)) {
      assert Blames(world, wire + [m], |wire|);
    }
    if k: nat :| Blames(world, wire + [m], k) {
      assert k < |wire| ==> Blames(world, wire, k);
    }
  }

  // The client and the administrator are never blamed.
  lemma BlamedAct(world: World, wire: seq<Message>, act: Action)
    requires Proven(act)
    ensures Blamed(world, wire + ActionCalls(act)) <==> Blamed(world, wire)
  {
    hide ActionCalls, Proven, Blamed;
    CallShape(act);
    var calls := ActionCalls(act);
    if calls == [] {
      assert wire + calls == wire;
    } else {
      assert calls[0] in calls && calls == [calls[0]];
      BlamedCall(world, wire, calls[0]);
    }
  }

  // ---------- the transcript ----------

  // A turn of the loop: input read by call `at`, or an action whose call, if it
  // makes one, is call `at`.
  datatype Turn = Listen(at: nat) | Serve(at: nat)

  datatype Story = Story(console: Console, pending: Event, text: string)

  // The console after a read, and the event still to be acted on.
  function Listened(c: Console, reply: Message): (Console, Event)
    requires GoodRead(reply)
  {
    var after := if reply.words[0] >= 2 then Consumed(c, Hole).0 else c;
    if reply.words[0] % 2 == 0 then (after, Nothing)
    else
      var (next, event, _) := Consumed(after, Got(reply.words[1]));
      (next, event)
  }

  ghost function ToldBy(build: Build, world: World, s: Story, turn: Turn): Story {
    match turn
    case Listen(at) =>
      if !GoodRead(world(at)) then s
      else
        var (c, event) := Listened(s.console, world(at));
        Story(c, event, s.text + ReadAppends(s.console, world(at)))
    case Serve(at) =>
      if s.pending == Nothing then s
      else
        var (c, act) := Acted(build.Signing?, s.console, s.pending);
        Story(c, Nothing, s.text + if Proven(act) then ActionText(build, act, world(at)) else "")
  }

  // All text printed after the banner, from the turns and the world's replies.
  ghost function Told(build: Build, world: World, turns: seq<Turn>): Story
    decreases |turns|
  {
    if turns == [] then Story(START, Nothing, "")
    else ToldBy(build, world, Told(build, world, turns[..|turns| - 1]), turns[|turns| - 1])
  }

  lemma ToldMore(build: Build, world: World, turns: seq<Turn>, turn: Turn)
    ensures Told(build, world, turns + [turn]) == ToldBy(build, world, Told(build, world, turns), turn)
  {
    assert (turns + [turn])[..|turns|] == turns;
  }

  // The text printed so far is the banner and the story of the turns.
  ghost predicate Tells(build: Build, world: World, turns: seq<Turn>, banner: string, c: Console, pending: Event, text: string) {
    var told := Told(build, world, turns);
    told.console == c && told.pending == pending && text == banner + told.text
  }

  lemma ServeTells(build: Build, world: World, turns: seq<Turn>, banner: string, c: Console, pending: Event, text: string,
                   at: nat)
    requires Tells(build, world, turns, banner, c, pending, text)
    requires pending != Nothing && Proven(Acted(build.Signing?, c, pending).1)
    ensures var (next, act) := Acted(build.Signing?, c, pending);
            Tells(build, world, turns + [Serve(at)], banner, next, Nothing, text + ActionText(build, act, world(at)))
  {
    hide Told, Acted, ActionText, Proven;
    ToldMore(build, world, turns, Serve(at));
    var said := ActionText(build, Acted(build.Signing?, c, pending).1, world(at));
    assert banner + (Told(build, world, turns).text + said) == text + said;
  }

  lemma ListenTells(build: Build, world: World, turns: seq<Turn>, banner: string, c: Console, pending: Event, text: string,
                    at: nat)
    requires Tells(build, world, turns, banner, c, pending, text) && GoodRead(world(at))
    ensures var (next, event) := Listened(c, world(at));
            Tells(build, world, turns + [Listen(at)], banner, next, event, text + ReadAppends(c, world(at)))
  {
    hide Told, Listened, ReadAppends, GoodRead;
    ToldMore(build, world, turns, Listen(at));
    var said := ReadAppends(c, world(at));
    assert banner + (Told(build, world, turns).text + said) == text + said;
  }

  // ---------- with the driver at the other end ----------

  predicate NoTakes(ops: seq<Op>) { Take !in ops }

  // The driver answers each read by taking from the ring; between reads the ring
  // only receives and loses.
  ghost predicate Drives(world: World, wire: seq<Message>, ops: seq<Op>)
    decreases |wire|
  {
    if wire == [] then NoTakes(ops)
    else
      var n := |wire| - 1;
      if wire[n] == READ_CALL then exists j | 0 <= j < |ops| :: Answers(world, wire, ops, j)
      else Drives(world, wire[..n], ops)
  }

  // The last call, a read, is answered by operation j.
  ghost predicate Answers(world: World, wire: seq<Message>, ops: seq<Op>, j: nat)
    requires wire != [] && j < |ops|
    decreases |wire|, 0
  {
    && ops[j] == Take && NoTakes(ops[j + 1..])
    && world(|wire| - 1) == ReadReply(PortAt(ops[..j], j).rx)
    && Drives(world, wire[..|wire| - 1], ops[..j])
  }

  lemma {:induction false} RingPrefix(ops: seq<Op>, j: nat, n: nat)
    requires n <= j <= |ops|
    ensures PortAt(ops[..j], n) == PortAt(ops, n)
  {
    if n > 0 { RingPrefix(ops, j, n - 1); }
  }

  lemma {:induction false} NothingTaken(ops: seq<Op>, j: nat, n: nat)
    requires j <= n <= |ops| && NoTakes(ops[j..])
    ensures PortAt(ops, n).taken == PortAt(ops, j).taken
    decreases n
  {
    if j < n {
      NothingTaken(ops, j, n - 1);
      assert ops[n - 1] == ops[j..][n - 1 - j];
    }
  }

  // What the terminal hears is what was taken from the ring.
  lemma {:induction false} HeardIsTaken(world: World, wire: seq<Message>, ops: seq<Op>)
    requires Drives(world, wire, ops)
    ensures Heard(world, wire) == PortAt(ops, |ops|).taken
    decreases |wire|
  {
    if wire == [] {
      assert ops[0..] == ops;
      NothingTaken(ops, 0, |ops|);
    } else if wire[|wire| - 1] != READ_CALL {
      HeardIsTaken(world, wire[..|wire| - 1], ops);
    } else {
      var j: nat :| j < |ops| && Answers(world, wire, ops, j);
      var before := PortAt(ops[..j], j);
      HeardIsTaken(world, wire[..|wire| - 1], ops[..j]);
      HonestRead(before.rx);
      RingPrefix(ops, j, j);
      NothingTaken(ops, j + 1, |ops|);
    }
  }

  // ---------- where requests come from ----------

  // Some taken item warranted the action.
  ghost predicate Caused(signed: bool, items: seq<Item>, n: nat, act: Action) {
    exists k :: 0 <= k < n <= |items| && Warranted(signed, items, k, act)
  }

  lemma NoActs(signed: bool, items: seq<Item>)
    ensures After(signed, items, 0).acts == []
  {
  }

  lemma {:induction false} ActsCaused(signed: bool, items: seq<Item>, n: nat, act: Action)
    requires n <= |items| && act in After(signed, items, n).acts
    ensures Caused(signed, items, n, act)
  {
    hide After, Warranted;
    if n == 0 {
      NoActs(signed, items);
    } else {
      ActionsWarranted(signed, items, n - 1);
      if act in After(signed, items, n - 1).acts {
        ActsCaused(signed, items, n - 1, act);
      } else {
        var before, after := After(signed, items, n - 1).acts, After(signed, items, n).acts;
        assert after == before + [after[|before|]];
        assert Warranted(signed, items, n - 1, act);
      }
    }
  }

  lemma {:induction false} AskedFor(acts: seq<Action>, m: Message)
    requires m in CallsOf(acts)
    ensures exists act :: act in acts && Proven(act) && m in ActionCalls(act)
    decreases |acts|
  {
    hide ActionCalls;
    var n := |acts| - 1;
    if m in CallsOf(acts[..n]) { AskedFor(acts[..n], m); }
  }

  lemma {:induction false} AskedOnWire(wire: seq<Message>, m: Message)
    requires m in wire && !ToDriver(m)
    ensures m in Asked(wire)
    decreases |wire|
  {
    var n := |wire| - 1;
    if m != wire[n] {
      assert m in wire[..n];
      AskedOnWire(wire[..n], m);
    }
  }

  // The action behind a call to the client or the administrator.
  ghost predicate Behind(signed: bool, items: seq<Item>, n: nat, m: Message, act: Action) {
    Proven(act) && m in ActionCalls(act) && Caused(signed, items, n, act)
  }

  lemma CallCaused(world: World, wire: seq<Message>, items: seq<Item>, acts: seq<Action>, sent: seq<u64>,
                   signed: bool, n: nat, m: Message)
    requires OnRecord(world, wire, items, acts, sent) && n <= |items| && acts == After(signed, items, n).acts
    requires m in wire && !ToDriver(m)
    ensures exists act :: Behind(signed, items, n, m, act)
  {
    hide After, ActionCalls, Caused, Proven;
    AskedOnWire(wire, m);
    AskedFor(acts, m);
    var act :| act in acts && Proven(act) && m in ActionCalls(act);
    ActsCaused(signed, items, n, act);
    assert Behind(signed, items, n, m, act);
  }

  lemma SubmitAction(act: Action, m: Message)
    requires Proven(act) && m in ActionCalls(act) && m.tag == S.ADMIN_SUBMIT
    ensures act.Submit? && |act.digits| == DIGITS && AllHex(act.digits) && m.words == Packed(Filled(act.digits))
  {
  }

  lemma ReadAction(act: Action, m: Message)
    requires Proven(act) && m in ActionCalls(act) && m.tag == CLIENT_READ
    ensures act.Run? && |m.words| == 3 && m.words[..2] == [OBJECT, READ] && Spells(act.text, Read(m.words[2]))
  {
  }

  // The printed digits of the packet, and Enter, arrived next to each other.
  ghost predicate PacketArrivedAt(p: Port, packet: Bytes, e: nat) {
    e < |p.arrived| && FrameReady(p.arrived, e, Hexed(packet))
  }

  // From wire to administrator: when the driver answers from the ring, every
  // packet the terminal submits is one whose 384 digits and Enter arrived
  // together, whatever else was lost.
  lemma PacketArrived(world: World, wire: seq<Message>, items: seq<Item>, acts: seq<Action>,
                      sent: seq<u64>, signed: bool, n: nat, ops: seq<Op>, m: Message)
    requires OnRecord(world, wire, items, acts, sent) && n <= |items| && acts == After(signed, items, n).acts
    requires Drives(world, wire, ops) && m in wire && m.tag == S.ADMIN_SUBMIT
    ensures items == PortAt(ops, |ops|).taken
    ensures |m.words| == S.PACKET_WORDS && exists e: nat :: PacketArrivedAt(PortAt(ops, |ops|), Unpacked(m.words), e)
  {
    hide After, Drives, ActionCalls, Warranted, FrameReady, Filled, Hexed, AllHex, Packed, Unpacked, Covers;
    HeardIsTaken(world, wire, ops);
    CallCaused(world, wire, items, acts, sent, signed, n, m);
    var act :| Behind(signed, items, n, m, act);
    SubmitAction(act, m);
    var digits := act.digits;
    var k: nat :| k < n && Warranted(signed, items, k, act);
    SubmitArrived(ops, |ops|, signed, k, digits);
    var e: nat :| FrameArrivedAt(PortAt(ops, |ops|), k, digits, e);
    UnpackPacked(Filled(digits));
    TextRoundTrip(digits);
    assert PacketArrivedAt(PortAt(ops, |ops|), Unpacked(m.words), e);
  }

  // A generation the client is asked to read with was typed in a `read` line that
  // arrived whole.
  ghost predicate ReadArrivedAt(p: Port, g: u64, text: Bytes, e: nat) {
    && e < |p.arrived| && EventAt(false, p.arrived, e) == Ready
    && Edited(p.arrived[Start(p.arrived, e)..e]) == Some(text) && Spells(text, Read(g))
  }

  lemma ReadArrived(world: World, wire: seq<Message>, items: seq<Item>, acts: seq<Action>,
                    sent: seq<u64>, signed: bool, n: nat, ops: seq<Op>, m: Message)
    requires OnRecord(world, wire, items, acts, sent) && n <= |items| && acts == After(signed, items, n).acts
    requires Drives(world, wire, ops) && m in wire && m.tag == CLIENT_READ
    ensures |m.words| == 3 && m.words[..2] == [OBJECT, READ]
    ensures exists text: Bytes, e: nat :: ReadArrivedAt(PortAt(ops, |ops|), m.words[2], text, e)
  {
    hide After, Drives, ActionCalls, Spells, EventAt, Edited, Start, Covers;
    HeardIsTaken(world, wire, ops);
    CallCaused(world, wire, items, acts, sent, signed, n, m);
    var act :| Behind(signed, items, n, m, act);
    ReadAction(act, m);
    var k: nat :| k < n && Warranted(signed, items, k, act);
    RunArrived(ops, |ops|, signed, k, act.text);
    var e: nat :| SameLine(PortAt(ops, |ops|), false, k, e);
    assert ReadArrivedAt(PortAt(ops, |ops|), m.words[2], act.text, e);
  }

  // The whole chain: a command the administrator admits was typed, signed, as the
  // printed canonical encoding for its realm and boot.
  lemma AdmittedWasTyped(p: Port, a: A.Adm, m: Message, verify: A.Verifier)
    requires A.Ready(a) && Is(m, S.ADMIN_SUBMIT, S.PACKET_WORDS)
    requires A.AdmitStatus(a, Unpacked(m.words), verify) == A.ACCEPTED
    requires exists e: nat :: PacketArrivedAt(p, Unpacked(m.words), e)
    ensures var c, signature := A.Admitted(a, Unpacked(m.words), verify).2, Unpacked(m.words)[128..];
            && verify(a.key, A.Canonical(a.realm, a.boot, c), signature)
            && exists e: nat :: PacketArrivedAt(p, A.Canonical(a.realm, a.boot, c) + signature, e)
  {
    hide A.Canonical, A.AdmitStatus, FrameReady, Hexed;
    A.AcceptedIsCanonical(a, Unpacked(m.words), verify);
    var packet := Unpacked(m.words);
    assert packet == packet[..128] + packet[128..];
  }

  // From live authority back to the keyboard: when every packet submitted to the
  // administrator is a call of the terminal and the driver answers from the ring,
  // whoever is active was granted that generation by a command whose signed packet
  // was typed in one piece.
  lemma AuthorityWasTyped(key: Bytes, realm: Bytes, boot: Bytes, deeds: seq<S.Act>, k: nat, verify: A.Verifier,
                                             i: u64, world: World, wire: seq<Message>, items: seq<Item>, acts: seq<Action>,
                                             sent: seq<u64>, signed: bool, n: nat, ops: seq<Op>)
    requires k <= |deeds| && |key| == |realm| == |boot| == 32 && i < SUBJECTS
    requires S.OfficeAt(S.Opened(key, realm, boot), deeds, k, verify).h.live[i].state == ACTIVE
    requires OnRecord(world, wire, items, acts, sent) && n <= |items| && acts == After(signed, items, n).acts
    requires Drives(world, wire, ops)
    requires forall d | d in deeds :: d.Submit? && d.m.tag == S.ADMIN_SUBMIT ==> d.m in wire
    ensures var o := S.OfficeAt(S.Opened(key, realm, boot), deeds, k, verify);
            exists j: nat, e: nat :: S.Grants(o.done, j, i, o.h.live[i].generation)
                                     && verify(key, A.Canonical(realm, boot, o.done[j].command), o.done[j].signature)
                                     && PacketArrivedAt(PortAt(ops, |ops|), S.PacketOf(o, j), e)
  {
    hide S.OfficeAt, S.Lockstep, After, Drives, OnRecord, PacketArrivedAt, S.PacketOf, A.Canonical;
    var o := S.OfficeAt(S.Opened(key, realm, boot), deeds, k, verify);
    S.AuthorityIsSigned(key, realm, boot, deeds, k, verify, i);
    var j: nat :| S.Grants(o.done, j, i, o.h.live[i].generation)
                  && verify(key, A.Canonical(realm, boot, o.done[j].command), o.done[j].signature);
    S.OrdersSubmitted(key, realm, boot, deeds, k, verify, j);
    var d: nat :| d < k && S.Carries(deeds[d], S.PacketOf(o, j));
    assert deeds[d] in deeds;
    PacketArrived(world, wire, items, acts, sent, signed, n, ops, deeds[d].m);
    var e: nat :| PacketArrivedAt(PortAt(ops, |ops|), S.PacketOf(o, j), e);
  }
}

// What servers/terminal.c makes of its input: the line editor, the packet reader
// that a `submit` line opens, and the actions their events cause, one at a time
// and in order.

module Console {
  import opened Words
  import opened Codec
  import opened Serial
  import opened LineEditor
  import opened SignedInput

  const SUBMIT_WORD: Bytes := [115, 117, 98, 109, 105, 116]

  datatype Console = Console(line: Line, frame: Frame, packetMode: bool)

  const START := Console(Line([], false, false, false), Begun(false), false)

  datatype Action =
    | Run(text: Bytes)
    | OpenPacket
    | Submit(digits: Bytes)
    | RefuseLine
    | CancelLine
    | RefusePacket
    | CancelPacket

  // One taken item, with its event and echo.
  function Consumed(c: Console, item: Item): (Console, Event, Bytes) {
    match item
    case Hole => (c.(frame := if c.packetMode then DISCARDED else c.frame, line := Discarded(c.line)), Nothing, [])
    case Got(b) =>
      if c.packetMode then
        var (frame, event, echo) := FrameFed(c.frame, b);
        (c.(frame := frame), event, echo)
      else
        var (line, event, echo) := Input(c.line, b);
        (c.(line := line), event, echo)
  }

  // Leaving packet mode, the editor starts afresh after the frame's delimiter.
  function Left(c: Console): Console { Console(Line([], false, c.frame.cr, false), DISCARDED, false) }

  function Acted(signed: bool, c: Console, event: Event): (Console, Action)
    requires event != Nothing
  {
    if c.packetMode then
      (Left(c), if event == Ready then Submit(c.frame.text) else if event == Cancelled then CancelPacket else RefusePacket)
    else if event == Ready then
      if signed && c.line.text == SUBMIT_WORD then (c.(frame := Begun(c.line.cr), packetMode := true), OpenPacket)
      else (c, Run(c.line.text))
    else (c, if event == Cancelled then CancelLine else RefuseLine)
  }

  // `mark` is where the last packet was opened.
  datatype Session = Session(console: Console, acts: seq<Action>, mark: nat)

  function Next(signed: bool, s: Session, item: Item, n: nat): Session {
    var (c, event, _) := Consumed(s.console, item);
    if event == Nothing then s.(console := c)
    else
      var (next, act) := Acted(signed, c, event);
      Session(next, s.acts + [act], if act.OpenPacket? then n + 1 else s.mark)
  }

  function After(signed: bool, items: seq<Item>, n: nat): Session
    requires n <= |items|
  {
    if n == 0 then Session(START, [], 0) else Next(signed, After(signed, items, n - 1), items[n - 1], n - 1)
  }

  lemma {:induction false} AfterPrefix(signed: bool, items: seq<Item>, more: seq<Item>, n: nat)
    requires n <= |items|
    ensures After(signed, items + more, n) == After(signed, items, n)
  {
    hide Next;
    if n > 0 { AfterPrefix(signed, items, more, n - 1); }
  }

  lemma AfterOneMore(signed: bool, items: seq<Item>, item: Item)
    ensures After(signed, items + [item], |items| + 1) == Next(signed, After(signed, items, |items|), item, |items|)
    ensures After(signed, items + [item], |items|) == After(signed, items, |items|)
  {
    hide Next;
    AfterPrefix(signed, items, [item], |items|);
  }

  lemma EchoShort(c: Console, item: Item)
    ensures |Consumed(c, item).2| <= 4 && Consumed(c, item).0.packetMode == c.packetMode
    ensures item == Hole ==> Consumed(c, item).1 == Nothing && Consumed(c, item).2 == []
  {
  }

  // The console and the actions follow from the items taken so far; at most the
  // last item's event is still to be acted on.
  ghost predicate Orderly(signed: bool, items: seq<Item>, acts: seq<Action>, c: Console, pending: Event) {
    var n := |items|;
    if pending == Nothing then After(signed, items, n).console == c && After(signed, items, n).acts == acts
    else
      && n > 0
      && var s := After(signed, items, n - 1);
      && Consumed(s.console, items[n - 1]).0 == c && Consumed(s.console, items[n - 1]).1 == pending && s.acts == acts
  }

  lemma ItemOrderly(signed: bool, items: seq<Item>, acts: seq<Action>, c: Console, item: Item)
    requires Orderly(signed, items, acts, c, Nothing)
    ensures var (next, event, _) := Consumed(c, item); Orderly(signed, items + [item], acts, next, event)
  {
    hide After, Consumed, Acted;
    AfterOneMore(signed, items, item);
  }

  lemma ActOrderly(signed: bool, items: seq<Item>, acts: seq<Action>, c: Console, pending: Event)
    requires Orderly(signed, items, acts, c, pending) && pending != Nothing
    ensures var (next, act) := Acted(signed, c, pending); Orderly(signed, items, acts + [act], next, Nothing)
  {
    hide Consumed, Acted;
  }

  predicate Follows(items: seq<Item>, n: nat, cr: bool)
    requires n <= |items|
  {
    cr == (n > 0 && items[n - 1] == Got(CR))
  }

  // Outside a packet the line is the edit since the last delimiter, packets
  // included; inside, the frame is what was typed since it was opened.
  ghost predicate Tracks(signed: bool, items: seq<Item>, n: nat, s: Session)
    requires n <= |items|
  {
    var c := s.console;
    if c.packetMode then
      && signed && 0 < s.mark <= n && Cuts(items[s.mark - 1])
      && c.frame == FrameAt(items[s.mark - 1] == Got(CR), items[s.mark..], n - s.mark)
      && !c.frame.completed
    else
      && |c.line.text| < LINE_CAPACITY && Follows(items, n, c.line.cr)
      && Current(c.line) == Edited(items[Start(items, n)..n])
  }

  // Item n ends a line whose trusted edit is the text.
  predicate LineReady(items: seq<Item>, n: nat, text: Bytes)
    requires n < |items|
  {
    EventAt(false, items, n) == Ready && Edited(items[Start(items, n)..n]) == Some(text)
  }

  // Item n ends a frame of exactly these digits.
  predicate FrameReady(items: seq<Item>, n: nat, digits: Bytes)
    requires n < |items|
  {
    && DIGITS <= n && |digits| == DIGITS && AllHex(digits)
    && items[n - DIGITS..n] == Gots(digits) && items[n].Got? && Enters(items[n].byte)
  }

  lemma EventCuts(l: Line, item: Item)
    requires |l.text| < LINE_CAPACITY
    ensures Step(l, item).1 != Nothing ==> Cuts(item) && !(item == Got(LF) && l.cr)
    ensures Step(l, item).1 == Ready ==> Current(l) == Some(Step(l, item).0.text)
    ensures Step(l, item).1 == Cancelled ==> item == Got(CTRL_C)
    ensures Step(l, item).1 == Rejected ==> item.Got? && Enters(item.byte)
  {
  }

  lemma LineTracks(signed: bool, items: seq<Item>, n: nat, s: Session)
    requires n < |items| && Tracks(signed, items, n, s) && !s.console.packetMode
    ensures Tracks(signed, items, n + 1, Next(signed, s, items[n], n))
    ensures Consumed(s.console, items[n]).1 == Ready ==> LineReady(items, n, Consumed(s.console, items[n]).0.line.text)
  {
    hide Edited, Cuts;
    var l, item := s.console.line, items[n];
    var run := items[Start(items, n)..n];
    if n > 0 && items[n - 1] == Got(CR) { CarriageCuts(items, n); }
    assert n == 0 ==> run == [];
    EditedNothing();
    StepCurrent(l, item, run);
    assert !Cuts(item) ==> items[Start(items, n + 1)..n + 1] == run + [item];
    assert items[n + 1..n + 1] == [];
    EventCuts(l, item);
    assert items[n + 1..][..0] == [];
  }

  lemma PacketTracks(signed: bool, items: seq<Item>, n: nat, s: Session)
    requires n < |items| && Tracks(signed, items, n, s) && s.console.packetMode
    ensures Tracks(signed, items, n + 1, Next(signed, s, items[n], n))
    ensures Consumed(s.console, items[n]).1 == Ready ==> FrameReady(items, n, Consumed(s.console, items[n]).0.frame.text)
  {
    hide Edited, Cuts, FrameFed, Hex, AllHex;
    var cr, own, k := items[s.mark - 1] == Got(CR), items[s.mark..], n - s.mark;
    assert own[k] == items[n];
    FrameEvents(s.console.frame, items[n]);
    EditedNothing();
    assert items[n + 1..n + 1] == [];
    if Consumed(s.console, items[n]).1 == Ready {
      FrameExact(cr, own, k);
      var lead := Lead(cr, own, k);
      var digits := own[lead..k];
      assert digits == items[n - DIGITS..n];
      assert Gots(BytesOf(digits)) == digits;
    }
  }

  lemma TracksInitially(signed: bool, items: seq<Item>)
    ensures Tracks(signed, items, 0, Session(START, [], 0))
  {
    assert items[0..0] == [];
    EditedNothing();
  }

  lemma {:induction false} SessionTracks(signed: bool, items: seq<Item>, n: nat)
    requires n <= |items|
    ensures Tracks(signed, items, n, After(signed, items, n))
  {
    hide Next, Tracks;
    if n == 0 {
      TracksInitially(signed, items);
    } else {
      SessionTracks(signed, items, n - 1);
      var s := After(signed, items, n - 1);
      if s.console.packetMode { PacketTracks(signed, items, n - 1, s); } else { LineTracks(signed, items, n - 1, s); }
    }
  }

  lemma PendingPacket(signed: bool, items: seq<Item>, n: nat)
    requires n < |items|
    requires var (c, event, _) := Consumed(After(signed, items, n).console, items[n]); event == Ready && c.packetMode
    ensures |Consumed(After(signed, items, n).console, items[n]).0.frame.text| == DIGITS
  {
    hide Tracks, After, Next;
    SessionTracks(signed, items, n);
    PacketTracks(signed, items, n, After(signed, items, n));
  }

  // A packet handed to the administrator is complete.
  lemma ReadyPacket(signed: bool, items: seq<Item>, acts: seq<Action>, c: Console)
    requires Orderly(signed, items, acts, c, Ready) && c.packetMode
    ensures |c.frame.text| == DIGITS
  {
    hide After, Consumed;
    PendingPacket(signed, items, |items| - 1);
  }

  // While packet mode lasts its frame is open: the loop leaves the mode on the
  // very event that completes a frame, so it never feeds a completed one.
  lemma FrameOpen(signed: bool, items: seq<Item>, n: nat)
    requires n <= |items| && After(signed, items, n).console.packetMode
    ensures !After(signed, items, n).console.frame.completed
  {
    hide After;
    SessionTracks(signed, items, n);
  }

  // What may make item n cause this action.
  predicate Warranted(signed: bool, items: seq<Item>, n: nat, act: Action)
    requires n < |items|
  {
    match act
    case Run(text) => LineReady(items, n, text) && (signed ==> text != SUBMIT_WORD)
    case OpenPacket => LineReady(items, n, SUBMIT_WORD) && signed
    case Submit(digits) => FrameReady(items, n, digits) && signed
    case CancelLine => items[n] == Got(CTRL_C)
    case CancelPacket => items[n] == Got(CTRL_C) && signed
    case RefuseLine => items[n].Got? && Enters(items[n].byte)
    case RefusePacket => items[n].Got? && Enters(items[n].byte) && signed
  }

  lemma Warrants(signed: bool, items: seq<Item>, n: nat, s: Session)
    requires n < |items| && Tracks(signed, items, n, s)
    ensures var before, after := s.acts, Next(signed, s, items[n], n).acts;
            || after == before
            || (|after| == |before| + 1 && after[..|before|] == before && Warranted(signed, items, n, after[|before|]))
  {
    hide Edited, FrameReady, LineReady, FrameAt, EventAt, Start;
    var (c, event, echo) := Consumed(s.console, items[n]);
    if s.console.packetMode {
      PacketTracks(signed, items, n, s);
      FrameEvents(s.console.frame, items[n]);
    } else {
      LineTracks(signed, items, n, s);
      EventCuts(s.console.line, items[n]);
    }
  }

  // Each item causes at most one action. A line runs only when it is the trusted
  // edit of the items since the last delimiter, a packet is submitted only when
  // its 384 digits and Enter are the last 385 items, and a read-only terminal
  // submits nothing.
  lemma ActionsWarranted(signed: bool, items: seq<Item>, n: nat)
    requires n < |items|
    ensures var before, after := After(signed, items, n).acts, After(signed, items, n + 1).acts;
            || after == before
            || (|after| == |before| + 1 && after[..|before|] == before && Warranted(signed, items, n, after[|before|]))
  {
    SessionTracks(signed, items, n);
    var s := After(signed, items, n);
    Warrants(signed, items, n, s);
  }

  // ---------- behind the lossy ring ----------

  // The digits of a frame and its Enter, where they arrived.
  ghost predicate FrameArrivedAt(p: Port, n: nat, digits: Bytes, e: nat)
    requires n < |p.taken|
  {
    e < |p.arrived| && FrameReady(p.arrived, e, digits) && Covers(p.taken[..n + 1], p.arrived[..e + 1])
  }

  // End to end: whatever the wire and the ring lose, a command runs only as a
  // line, and a packet is submitted only as a frame, of the bytes as they arrived.
  lemma RunArrived(ops: seq<Op>, m: nat, signed: bool, n: nat, text: Bytes)
    requires m <= |ops| && n < |PortAt(ops, m).taken|
    requires Warranted(signed, PortAt(ops, m).taken, n, Run(text))
    ensures exists e :: SameLine(PortAt(ops, m), false, n, e)
  {
    hide PortAt, Edited;
    EventExact(false, PortAt(ops, m).taken, n);
    GapSafe(ops, m, false, n);
  }

  lemma SubmitArrived(ops: seq<Op>, m: nat, signed: bool, n: nat, digits: Bytes)
    requires m <= |ops| && n < |PortAt(ops, m).taken|
    requires Warranted(signed, PortAt(ops, m).taken, n, Submit(digits))
    ensures exists e :: FrameArrivedAt(PortAt(ops, m), n, digits, e)
  {
    hide PortAt, Covers, AllHex;
    var p := PortAt(ops, m);
    QueueFaithful(ops, m);
    var k := n - DIGITS;
    assert p.taken[k..n + 1] == Gots(digits) + [p.taken[n]];
    var a := TakenContiguous(p, k, n + 1);
    var e := a + DIGITS;
    assert p.arrived[a..e + 1][..DIGITS] == p.arrived[a..e] && p.arrived[a..e + 1][DIGITS] == p.arrived[e];
    assert FrameArrivedAt(p, n, digits, e);
  }
}

// What each typed item does: which lines and frames are accepted, refused and
// cancelled, and which action follows, with nothing left out.

module InputOutcomes {
  import opened Words
  import opened Codec
  import opened Messages
  import opened Serial
  import opened LineEditor
  import opened SignedInput
  import opened Commands
  import opened Console
  import opened TerminalText
  import opened Wire
  import S = AdminServer

  predicate IsEnter(item: Item) { item == Got(10) || item == Got(13) }

  // ---------- editing ----------

  // How long the line is after n items: one more for each byte typed, one less,
  // while there is any, for each erased.
  function Length(run: seq<Item>, n: nat): nat
    requires n <= |run|
  {
    if n == 0 then 0
    else
      var before := Length(run, n - 1);
      if run[n - 1].Hole? then before
      else if Erases(run[n - 1].byte) then if before == 0 then 0 else before - 1
      else before + 1
  }

  // Item k leaves the line trustworthy: an erasure, or a printable byte with room.
  predicate Acceptable(run: seq<Item>, k: nat)
    requires k < |run|
  {
    run[k].Got? && (Erases(run[k].byte) || (Printable(run[k].byte) && Length(run, k) < 127))
  }

  ghost predicate Trusted(run: seq<Item>) { forall k | 0 <= k < |run| :: Acceptable(run, k) }

  // The edit can be trusted exactly when every item of it can.
  lemma {:induction false} EditedExactly(run: seq<Item>, n: nat)
    requires n <= |run|
    ensures Edited(run[..n]).Some? <==> forall k | 0 <= k < n :: Acceptable(run, k)
    ensures Edited(run[..n]).Some? ==> |Edited(run[..n]).value| == Length(run, n)
  {
    if n > 0 {
      EditedExactly(run, n - 1);
      assert run[..n] == run[..n - 1] + [run[n - 1]];
      EditedSnoc(run[..n - 1], run[n - 1]);
      assert Edited(run[..n - 1]).Some? ==> (Edited(run[..n]).Some? <==> Acceptable(run, n - 1));
    } else {
      assert run[..0] == [];
    }
  }

  lemma {:induction false} EditedSame(xs: seq<Item>, ys: seq<Item>, more: seq<Item>)
    requires Edited(xs) == Edited(ys)
    ensures Edited(xs + more) == Edited(ys + more)
    decreases |more|
  {
    hide Edited;
    if more == [] {
      assert xs + more == xs && ys + more == ys;
    } else {
      var m := |more| - 1;
      EditedSame(xs, ys, more[..m]);
      EditedSnoc(xs + more[..m], more[m]);
      EditedSnoc(ys + more[..m], more[m]);
      assert xs + more == xs + more[..m] + [more[m]] && ys + more == ys + more[..m] + [more[m]];
    }
  }

  // Erasing takes back the last byte typed, and does nothing to an empty line.
  lemma EraseUndoes(run: seq<Item>, b: u8, erase: u8, more: seq<Item>)
    requires Edited(run).Some? && Erases(erase)
    ensures Printable(b) && |Edited(run).value| < 127 ==> Edited(run + [Got(b), Got(erase)] + more) == Edited(run + more)
    ensures Edited(run) == Some([]) ==> Edited(run + [Got(erase)] + more) == Edited(run + more)
  {
    hide Edited;
    EditedSnoc(run, Got(erase));
    if Printable(b) && |Edited(run).value| < 127 {
      EditedSnoc(run, Got(b));
      EditedSnoc(run + [Got(b)], Got(erase));
      assert run + [Got(b), Got(erase)] == run + [Got(b)] + [Got(erase)];
      EditedSame(run + [Got(b), Got(erase)], run, more);
    }
    if Edited(run) == Some([]) { EditedSame(run + [Got(erase)], run, more); }
  }

  // A line feed that completes the carriage return before it.
  predicate SecondHalf(cr: bool, items: seq<Item>, n: nat)
    requires n < |items|
  {
    items[n] == Got(10) && if n == 0 then cr else items[n - 1] == Got(13)
  }

  // Every event of the editor: Ctrl-C cancels, Enter accepts exactly a trusted
  // line and rejects any other, and nothing else is an event.
  lemma LineEventExact(cr: bool, items: seq<Item>, n: nat)
    requires n < |items|
    ensures Step(LineAt(cr, items, n), items[n]).1 ==
              if items[n] == Got(3) then Cancelled
              else if !IsEnter(items[n]) || SecondHalf(cr, items, n) then Nothing
              else if Trusted(items[Start(items, n)..n]) then Ready
              else Rejected
  {
    hide LineAt, Step, Acceptable, Edited, Start;
    EventExact(cr, items, n);
    var run := items[Start(items, n)..n];
    EditedExactly(run, |run|);
    assert run[..|run|] == run;
  }

  // A line of printable bytes, not too long, is accepted as typed.
  lemma PlainLineReady(items: seq<Item>, s: nat, n: nat, text: Bytes)
    requires s <= n < |items| && (s == 0 || Cuts(items[s - 1])) && items[s..n] == Gots(text) && Plain(text)
    requires IsEnter(items[n]) && (s == n > 0 && items[n] == Got(10) ==> items[n - 1] != Got(13))
    ensures LineReady(items, n, text)
  {
    hide Edited;
    EditedPlain(text);
    forall i | s <= i < n ensures items[i] == Got(text[i - s]) && !Cuts(items[i]) {
      assert items[i] == items[s..n][i - s];
    }
    StartExact(items, s, n);
  }

  // ---------- frames ----------

  lemma OpenFrameFolds(f: Frame, item: Item)
    ensures var g := FrameStep(f, item).0; !g.completed ==> !g.cr
  {
  }

  // The frame's items are 384 lowercase hex digits, after the line feed that
  // completes the Enter that opened it, if there is one.
  predicate Digits384(cr: bool, items: seq<Item>, n: nat)
    requires n <= |items|
  {
    n == 384 + (if cr && n > 0 && items[0] == Got(10) then 1 else 0) && HexItems(items[n - 384..n])
  }

  // Every event of an open frame: Ctrl-C cancels, Enter accepts exactly a whole
  // frame and rejects any other, and nothing else is an event.
  lemma FrameEventExact(cr: bool, items: seq<Item>, n: nat)
    requires n < |items| && !FrameAt(cr, items, n).completed
    ensures FrameEvent(cr, items, n) ==
              if items[n] == Got(3) then Cancelled
              else if !IsEnter(items[n]) || (n == 0 && cr && items[n] == Got(10)) then Nothing
              else if Digits384(cr, items, n) then Ready
              else Rejected
  {
    hide HexItems, Hex;
    FrameExact(cr, items, n);
    if n > 0 { OpenFrameFolds(FrameAt(cr, items, n - 1), items[n - 1]); }
  }

  // An open frame echoes exactly the digits it takes, and ends its line when it
  // ends; once spoilt it is silent until then.
  lemma FrameEchoExact(f: Frame, b: u8)
    ensures var (next, event, echo) := FrameFed(f, b);
            echo == if event == Cancelled then [94, 67, 13, 10]
                    else if event == Ready || event == Rejected then [13, 10]
                    else if next.text == f.text + [b] then [b]
                    else []
    ensures f.completed ==> FrameFed(f, b) == (f, Nothing, [])
  {
  }

  // The digits in order of value.
  lemma HexValues(n: u8)
    requires n < 16
    ensures HexDigit(n) as char == "0123456789abcdef"[n]
  {
  }

  // ---------- the console ----------

  // The action the event of a command line causes.
  function LineActed(signed: bool, event: Event, text: Bytes): seq<Action> {
    match event
    case Nothing => []
    case Cancelled => [CancelLine]
    case Rejected => [RefuseLine]
    case Ready => [if signed && text == SUBMIT_WORD then OpenPacket else Run(text)]
  }

  function LineActions(signed: bool, items: seq<Item>, n: nat): seq<Action>
    requires n < |items|
  {
    var edit := Edited(items[Start(items, n)..n]);
    LineActed(signed, EventAt(false, items, n), if edit.Some? then edit.value else [])
  }

  lemma LineEvents(items: seq<Item>, n: nat, l: Line)
    requires n < |items| && |l.text| < LINE_CAPACITY && Follows(items, n, l.cr)
    requires Current(l) == Edited(items[Start(items, n)..n])
    ensures var (next, event) := Step(l, items[n]);
            && event == EventAt(false, items, n)
            && (event == Ready ==> Some(next.text) == Edited(items[Start(items, n)..n]))
  {
    hide Edited, Start;
  }

  lemma NextOutside(signed: bool, s: Session, item: Item, n: nat)
    requires !s.console.packetMode
    ensures var (line, event) := Step(s.console.line, item);
            var acted, next := LineActed(signed, event, line.text), Next(signed, s, item, n);
            && next.acts == s.acts + acted && next.console.packetMode == (acted == [OpenPacket])
            && next.mark == if next.console.packetMode then n + 1 else s.mark
  {
    hide Fed;
  }

  lemma LineNext(signed: bool, items: seq<Item>, n: nat, s: Session)
    requires n < |items| && Tracks(signed, items, n, s) && !s.console.packetMode
    ensures var acted, next := LineActions(signed, items, n), Next(signed, s, items[n], n);
            && next.acts == s.acts + acted && next.console.packetMode == (acted == [OpenPacket])
            && next.mark == if next.console.packetMode then n + 1 else s.mark
  {
    hide Edited, Start, EventAt, Next, Step, Current;
    LineEvents(items, n, s.console.line);
    NextOutside(signed, s, items[n], n);
  }

  // Outside packet mode each item causes exactly the action its event calls for:
  // a cancellation, a refusal, the command, or the opening of a packet.
  lemma LineOutcome(signed: bool, items: seq<Item>, n: nat)
    requires n < |items| && !After(signed, items, n).console.packetMode
    ensures var before, after := After(signed, items, n), After(signed, items, n + 1);
            && after.acts == before.acts + LineActions(signed, items, n)
            && after.console.packetMode == (LineActions(signed, items, n) == [OpenPacket])
            && after.mark == if after.console.packetMode then n + 1 else before.mark
  {
    hide Tracks, LineActions, Next;
    SessionTracks(signed, items, n);
    LineNext(signed, items, n, After(signed, items, n));
  }

  // The items of a frame opened just before item s are such a whole frame.
  predicate WholeFrame(items: seq<Item>, s: nat, n: nat)
    requires 0 < s <= n <= |items|
  {
    && n - s == 384 + (if items[s - 1] == Got(13) && s < n && items[s] == Got(10) then 1 else 0)
    && HexItems(items[n - 384..n])
  }

  // The action that ends such a frame.
  function FrameActions(items: seq<Item>, s: nat, n: nat): seq<Action>
    requires 0 < s <= n < |items|
  {
    if items[n] == Got(3) then [CancelPacket]
    else if !IsEnter(items[n]) || (n == s && items[s - 1] == Got(13) && items[n] == Got(10)) then []
    else if WholeFrame(items, s, n) then [Submit(BytesOf(items[n - 384..n]))]
    else [RefusePacket]
  }

  lemma SameFrame(items: seq<Item>, s: nat, n: nat)
    requires 0 < s <= n <= |items|
    ensures var cr, own, k := items[s - 1] == Got(13), items[s..], n - s;
            && (Digits384(cr, own, k) <==> WholeFrame(items, s, n))
            && (Digits384(cr, own, k) ==> own[Lead(cr, own, k)..k] == items[n - 384..n])
  {
    hide HexItems;
    if n - s >= 384 { assert items[s..][n - s - 384..n - s] == items[n - 384..n]; }
  }

  lemma FrameEvents384(items: seq<Item>, s: nat, n: nat)
    requires 0 < s <= n < |items| && !FrameAt(items[s - 1] == Got(13), items[s..], n - s).completed
    ensures var cr, own, k := items[s - 1] == Got(13), items[s..], n - s;
            var (frame, event) := FrameStep(FrameAt(cr, own, k), own[k]);
            && own[k] == items[n]
            && (event == Nothing <==> FrameActions(items, s, n) == [])
            && (event == Cancelled <==> FrameActions(items, s, n) == [CancelPacket])
            && (event == Rejected <==> FrameActions(items, s, n) == [RefusePacket])
            && (event == Ready ==> FrameActions(items, s, n) == [Submit(frame.text)])
  {
    hide FrameAt, FrameStep, HexItems, Lead, Digits384, BytesOf, AllHex;
    var cr, own, k := items[s - 1] == Got(13), items[s..], n - s;
    FrameEventExact(cr, own, k);
    FrameExact(cr, own, k);
    SameFrame(items, s, n);
  }

  lemma NextInside(signed: bool, s: Session, item: Item, n: nat)
    requires s.console.packetMode
    ensures var (frame, event) := FrameStep(s.console.frame, item);
            var next := Next(signed, s, item, n);
            && (event == Nothing ==> next.acts == s.acts)
            && (event == Cancelled ==> next.acts == s.acts + [CancelPacket])
            && (event == Rejected ==> next.acts == s.acts + [RefusePacket])
            && (event == Ready ==> next.acts == s.acts + [Submit(frame.text)])
            && next.console.packetMode == (event == Nothing) && next.mark == s.mark
  {
    hide FrameFed;
  }

  lemma FrameNext(signed: bool, items: seq<Item>, n: nat, s: Session)
    requires n < |items| && Tracks(signed, items, n, s) && s.console.packetMode
    ensures var next := Next(signed, s, items[n], n);
            && next.acts == s.acts + FrameActions(items, s.mark, n)
            && next.console.packetMode == (FrameActions(items, s.mark, n) == [])
            && next.mark == s.mark
  {
    hide FrameAt, FrameStep, Next, FrameActions;
    FrameEvents384(items, s.mark, n);
    NextInside(signed, s, items[n], n);
  }

  // In packet mode too: a cancellation, a refusal or the submission of exactly the
  // digits typed, and any of them ends the mode.
  lemma FrameOutcome(signed: bool, items: seq<Item>, n: nat)
    requires n < |items| && After(signed, items, n).console.packetMode
    ensures var before, after := After(signed, items, n), After(signed, items, n + 1);
            && 0 < before.mark <= n
            && after.acts == before.acts + FrameActions(items, before.mark, n)
            && after.console.packetMode == (FrameActions(items, before.mark, n) == [])
            && after.mark == before.mark
  {
    hide Next, FrameActions, FrameAt;
    SessionTracks(signed, items, n);
    FrameNext(signed, items, n, After(signed, items, n));
  }

  // ---------- typed in, carried out ----------

  // Between delimiters nothing happens.
  lemma {:induction false} NothingYet(signed: bool, items: seq<Item>, m: nat, n: nat)
    requires m <= n <= |items| && forall k | m <= k < n :: !Cuts(items[k])
    ensures var before, after := After(signed, items, m), After(signed, items, n);
            && after.acts == before.acts && after.mark == before.mark
            && after.console.packetMode == before.console.packetMode
    decreases n
  {
    hide After, Edited, Start;
    if m < n {
      NothingYet(signed, items, m, n - 1);
      if After(signed, items, n - 1).console.packetMode {
        FrameOutcome(signed, items, n - 1);
      } else {
        LineOutcome(signed, items, n - 1);
      }
    }
  }

  lemma GotsAt(items: seq<Item>, s: nat, n: nat, text: Bytes)
    requires s <= n <= |items| && items[s..n] == Gots(text)
    ensures n - s == |text| && forall k | s <= k < n :: items[k] == Got(text[k - s])
  {
    forall k | s <= k < n ensures items[k] == Got(text[k - s]) { assert items[k] == items[s..n][k - s]; }
  }

  // A printable line typed at the start of a line, and Enter, is carried out.
  lemma TypedLine(signed: bool, items: seq<Item>, s: nat, n: nat, text: Bytes)
    requires s <= n < |items| && !After(signed, items, s).console.packetMode
    requires (s == 0 || Cuts(items[s - 1])) && items[s..n] == Gots(text) && Plain(text)
    requires IsEnter(items[n]) && (s == n > 0 && items[n] == Got(10) ==> items[n - 1] != Got(13))
    ensures var before, after := After(signed, items, s), After(signed, items, n + 1);
            && after.acts == before.acts + [if signed && text == SUBMIT_WORD then OpenPacket else Run(text)]
            && after.console.packetMode == (signed && text == SUBMIT_WORD)
            && (after.console.packetMode ==> after.mark == n + 1)
  {
    hide After, Edited, Start, EventAt;
    GotsAt(items, s, n, text);
    NothingYet(signed, items, s, n);
    PlainLineReady(items, s, n, text);
    LineOutcome(signed, items, n);
  }

  // 384 digits typed once a packet is opened, and Enter, are submitted.
  lemma TypedFrame(signed: bool, items: seq<Item>, s: nat, n: nat, digits: Bytes)
    requires s <= n < |items| && After(signed, items, s).console.packetMode && After(signed, items, s).mark == s
    requires items[s..n] == Gots(digits) && |digits| == DIGITS && AllHex(digits) && IsEnter(items[n])
    ensures After(signed, items, n + 1).acts == After(signed, items, s).acts + [Submit(digits)]
    ensures !After(signed, items, n + 1).console.packetMode
  {
    hide After;
    GotsAt(items, s, n, digits);
    NothingYet(signed, items, s, n);
    FrameOutcome(signed, items, n);
    assert items[n - 384..n] == Gots(digits) && BytesOf(Gots(digits)) == digits;
  }

  // The calls an action makes, by what its line spells.
  lemma RunCalls(text: Bytes, t: Typed)
    requires Spells(text, t)
    ensures CallsOf([Run(text)]) ==
              match t
              case Status => [Message(CLIENT_STATUS, [])]
              case Read(g) => [Message(CLIENT_READ, [42, 1, g])]
              case _ => []
  {
    SpellsUnique(text, t, Meaning(text));
    assert [Run(text)][..0] == [];
    assert CallsOf([]) == [];
  }

  // The one-word commands, as typed.
  lemma WordsSpell()
    ensures Spells([104, 101, 108, 112], Help) && Spells([118, 101, 114, 115, 105, 111, 110], Version)
    ensures Spells([115, 116, 97, 116, 117, 115], Status) && Spells([], Empty)
  {
    forall w | w in [HELP, VERSION, STATUS] ensures Padded(w, w) {
      var none: Bytes := [];
      assert Blank(none) && w == none + w + none;
    }
  }

  function ReadLine(g: u64): Bytes { READ_WORD + [SPACE] + Decimal(g) }

  lemma Fresh(signed: bool, items: seq<Item>)
    ensures After(signed, items, 0) == Session(START, [], 0)
  {
  }

  lemma SpellsPlain(text: Bytes, g: u64)
    requires Spells(text, Read(g)) && 4 < |text| && text[0] == READ_WORD[0]
    ensures Plain(text) && text != SUBMIT_WORD
  {
  }

  // `read`, a generation as it is printed, and Enter make the client read with it.
  lemma TypedRead(signed: bool, g: u64)
    requires g != 0
    ensures var items := Gots(ReadLine(g)) + [Got(CR)];
            && After(signed, items, |items|).acts == [Run(ReadLine(g))]
            && CallsOf(After(signed, items, |items|).acts) == [Message(CLIENT_READ, [42, 1, g])]
  {
    hide After, Spells, CallsOf;
    var text := ReadLine(g);
    var items := Gots(text) + [Got(CR)];
    PrintedReads(g);
    assert Plain(text) && text != SUBMIT_WORD by { SpellsPlain(text, g); }
    assert items[0..|text|] == Gots(text);
    Fresh(signed, items);
    TypedLine(signed, items, 0, |text|, text);
    RunCalls(text, Read(g));
  }

  function PacketTyped(packet: Bytes): seq<Item> {
    Gots(SUBMIT_WORD) + [Got(CR)] + Gots(Hexed(packet)) + [Got(CR)]
  }

  lemma PacketCalls(digits: Bytes)
    requires |digits| == DIGITS && AllHex(digits)
    ensures CallsOf([OpenPacket, Submit(digits)]) == [Message(S.ADMIN_SUBMIT, Packed(Filled(digits)))]
  {
    hide AllHex, Filled, Packed;
    assert [OpenPacket, Submit(digits)][..1] == [OpenPacket];
    assert [OpenPacket][..0] == [];
    assert CallsOf([]) == [] && CallsOf([OpenPacket]) == [];
  }

  // `submit`, Enter, the printed packet and Enter submit it, once and whole.
  lemma TypedPacket(packet: Bytes)
    requires |packet| == PACKET
    ensures var items := PacketTyped(packet);
            && After(true, items, |items|).acts == [OpenPacket, Submit(Hexed(packet))]
            && CallsOf(After(true, items, |items|).acts) == [Message(S.ADMIN_SUBMIT, Packed(packet))]
  {
    hide After, Hexed, CallsOf, Filled, AllHex, Packed;
    var items := PacketTyped(packet);
    HexRoundTrip(packet);
    Fresh(true, items);
    assert items[0..6] == Gots(SUBMIT_WORD);
    TypedLine(true, items, 0, 6, SUBMIT_WORD);
    assert items[7..391] == Gots(Hexed(packet));
    TypedFrame(true, items, 7, 391, Hexed(packet));
    assert [] + [OpenPacket] + [Submit(Hexed(packet))] == [OpenPacket, Submit(Hexed(packet))];
    PacketCalls(Hexed(packet));
  }

  // From the keyboard to the administrator: when the line and the ring lose nothing
  // and the terminal has acted on all that arrived, a packet typed after `submit`
  // has been submitted, exactly once.
  lemma TypedPacketSubmitted(world: World, wire: seq<Message>, acts: seq<Action>, sent: seq<u64>, ops: seq<Op>,
                             packet: Bytes)
    requires |packet| == PACKET && Drives(world, wire, ops) && forall k | 0 <= k < |ops| :: !Drops(ops, k)
    requires PortAt(ops, |ops|).arrived == PacketTyped(packet) && PortAt(ops, |ops|).rx.queue == []
    requires OnRecord(world, wire, Heard(world, wire), acts, sent)
    requires acts == After(true, Heard(world, wire), |Heard(world, wire)|).acts
    ensures Asked(wire) == [Message(S.ADMIN_SUBMIT, Packed(packet))]
  {
    hide PortAt, Drives, Drops, After, Heard, PacketTyped, CallsOf, Packed, Backlog;
    KeptUp(ops, |ops|);
    HeardIsTaken(world, wire, ops);
    assert Heard(world, wire) == PacketTyped(packet);
    TypedPacket(packet);
  }
}

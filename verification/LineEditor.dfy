// lib/terminal.c: the bounded line editor. It accepts a line only when every
// byte since the previous delimiter is present and printable.

module LineEditor {
  import opened Words
  import opened Codec
  import opened Serial

  const LINE_CAPACITY := 128

  const CTRL_C: u8 := 3
  const BACKSPACE: u8 := 8
  const TAB: u8 := 9
  const LF: u8 := 10
  const CR: u8 := 13
  const SPACE: u8 := 32
  const CARET: u8 := 94
  const LETTER_C: u8 := 67
  const RUBOUT: u8 := 127

  datatype Event = Nothing | Ready | Rejected | Cancelled

  datatype Line = Line(text: Bytes, rejected: bool, cr: bool, completed: bool)

  predicate Enters(b: u8) { b == CR || b == LF }

  predicate Erases(b: u8) { b == BACKSPACE || b == RUBOUT }

  predicate Printable(b: u8) { (b >= 32 || b == TAB) && b <= 126 }

  // Delimiters and Ctrl-C end the line they follow.
  predicate Cuts(item: Item) { item.Got? && (item.byte == CTRL_C || Enters(item.byte)) }

  // ---------- one byte ----------

  function Emptied(l: Line): Line { l.(text := [], rejected := false, completed := false) }

  function Discarded(l: Line): Line { Line([], true, false, false) }

  function Fed(before: Line, b: u8): (Line, Event) {
    var l := if before.completed then Emptied(before) else before;
    if b == LF && l.cr then (l.(cr := false), Nothing)
    else
      var l := l.(cr := b == CR);
      if b == CTRL_C then (Emptied(l), Cancelled)
      else if Enters(b) then (l.(completed := true), if l.rejected then Rejected else Ready)
      else if l.rejected then (l, Nothing)
      else if Erases(b) then (if l.text == [] then l else l.(text := l.text[..|l.text| - 1]), Nothing)
      else if !Printable(b) || |l.text| == LINE_CAPACITY - 1 then (Discarded(l), Nothing)
      else (l.(text := l.text + [b]), Nothing)
  }

  // A loss reported by the driver discards the line.
  function Step(l: Line, item: Item): (Line, Event) {
    match item
    case Hole => (Discarded(l), Nothing)
    case Got(b) => Fed(l, b)
  }

  function LineAt(cr: bool, items: seq<Item>, n: nat): Line
    requires n <= |items|
  {
    if n == 0 then Line([], false, cr, false) else Step(LineAt(cr, items, n - 1), items[n - 1]).0
  }

  // ---------- lists of items ----------

  // Where the line before position n began.
  function Start(items: seq<Item>, n: nat): (s: nat)
    requires n <= |items|
    ensures s <= n
  {
    if n == 0 || Cuts(items[n - 1]) then n else Start(items, n - 1)
  }

  // One more item; an edit that cannot be trusted stays so.
  function Extended(before: Option<Bytes>, item: Item): Option<Bytes> {
    if before.None? || item.Hole? then None
    else
      var text := before.value;
      if Erases(item.byte) then Some(if text == [] then [] else text[..|text| - 1])
      else if Printable(item.byte) && |text| < LINE_CAPACITY - 1 then Some(text + [item.byte])
      else None
  }

  // The edit a run of bytes spells; None if it cannot be trusted as a line.
  function Edited(run: seq<Item>): Option<Bytes>
    decreases |run|
  {
    if run == [] then Some([])
    else Extended(Edited(run[..|run| - 1]), run[|run| - 1])
  }

  // A line feed right after a carriage return belongs to it.
  predicate Folded(cr: bool, items: seq<Item>, n: nat)
    requires n < |items|
  {
    items[n] == Got(LF) && if n == 0 then cr else items[n - 1] == Got(CR)
  }

  function EventAt(cr: bool, items: seq<Item>, n: nat): Event
    requires n < |items|
  {
    if !Cuts(items[n]) || Folded(cr, items, n) then Nothing
    else if items[n] == Got(CTRL_C) then Cancelled
    else if Edited(items[Start(items, n)..n]).Some? then Ready
    else Rejected
  }

  // The text that counts for the byte to come.
  function Current(l: Line): Option<Bytes> {
    if l.completed then Some([]) else if l.rejected then None else Some(l.text)
  }

  lemma EditedSnoc(run: seq<Item>, item: Item)
    ensures Edited(run + [item]) == Extended(Edited(run), item)
  {
    hide Extended;
    assert (run + [item])[..|run|] == run;
  }

  lemma StepExtends(l: Line, item: Item)
    requires |l.text| < LINE_CAPACITY && (l.cr ==> Current(l) == Some([]))
    ensures var next := Step(l, item).0;
            && |next.text| < LINE_CAPACITY && next.cr == (item == Got(CR))
            && Current(next) == if Cuts(item) then Some([]) else Extended(Current(l), item)
  {
  }

  lemma StepCurrent(l: Line, item: Item, run: seq<Item>)
    requires |l.text| < LINE_CAPACITY && Current(l) == Edited(run) && (l.cr ==> Edited(run) == Some([]))
    ensures var next := Step(l, item).0;
            && |next.text| < LINE_CAPACITY && next.cr == (item == Got(CR))
            && Current(next) == if Cuts(item) then Some([]) else Edited(run + [item])
  {
    hide Edited, Extended, Step, Current, Cuts;
    EditedSnoc(run, item);
    StepExtends(l, item);
  }

  lemma EditedNothing()
    ensures Edited([]) == Some([])
  {
  }

  lemma CarriageCuts(items: seq<Item>, n: nat)
    requires 0 < n <= |items| && items[n - 1] == Got(CR)
    ensures Start(items, n) == n
  {
  }

  lemma EditorStep(cr: bool, items: seq<Item>, n: nat, l: Line)
    requires n < |items| && |l.text| < LINE_CAPACITY
    requires l.cr == if n == 0 then cr else items[n - 1] == Got(CR)
    requires Current(l) == Edited(items[Start(items, n)..n])
    ensures var next := Step(l, items[n]).0;
            && |next.text| < LINE_CAPACITY && next.cr == (items[n] == Got(CR))
            && Current(next) == Edited(items[Start(items, n + 1)..n + 1])
  {
    hide Step, Current, Cuts, Edited;
    var run := items[Start(items, n)..n];
    EditedNothing();
    if n > 0 && items[n - 1] == Got(CR) { CarriageCuts(items, n); }
    assert l.cr ==> run == [];
    StepCurrent(l, items[n], run);
    assert items[n + 1..n + 1] == [];
    assert !Cuts(items[n]) ==> items[Start(items, n + 1)..n + 1] == run + [items[n]];
  }

  lemma CurrentInitially(cr: bool)
    ensures Current(Line([], false, cr, false)) == Some([]) == Edited([])
  {
  }

  lemma {:induction false} EditorState(cr: bool, items: seq<Item>, n: nat)
    requires n <= |items|
    ensures var l := LineAt(cr, items, n);
            && |l.text| < LINE_CAPACITY
            && l.cr == (if n == 0 then cr else items[n - 1] == Got(CR))
            && Current(l) == Edited(items[Start(items, n)..n])
  {
    hide Step, Current, Edited;
    if n == 0 {
      CurrentInitially(cr);
      assert items[0..0] == [];
    } else {
      EditorState(cr, items, n - 1);
      EditorStep(cr, items, n - 1, LineAt(cr, items, n - 1));
    }
  }

  // Every event, and the text of every accepted line, is a function of the items
  // since the previous delimiter or Ctrl-C: the editor is exact on lists.
  lemma EventExact(cr: bool, items: seq<Item>, n: nat)
    requires n < |items|
    ensures var (l, event) := Step(LineAt(cr, items, n), items[n]);
            && event == EventAt(cr, items, n)
            && (event == Ready ==> l.completed && Some(l.text) == Edited(items[Start(items, n)..n]))
  {
    EditorState(cr, items, n);
  }

  // Printable bytes typed without editing are the line.
  lemma {:induction false} EditedPlain(text: Bytes)
    requires |text| < LINE_CAPACITY && forall i | 0 <= i < |text| :: Printable(text[i])
    ensures Edited(Gots(text)) == Some(text)
    decreases |text|
  {
    if text != [] {
      var m := |text| - 1;
      EditedPlain(text[..m]);
      assert Gots(text)[..m] == Gots(text[..m]) && text == text[..m] + [text[m]];
    } else {
      assert Gots(text) == [];
    }
  }

  // ---------- behind the lossy ring ----------

  // The line that ends at taken item n also ends at arrival e, with the same text.
  ghost predicate SameLine(p: Port, cr: bool, n: nat, e: nat)
    requires n < |p.taken|
  {
    && e < |p.arrived|
    && EventAt(cr, p.arrived, e) == Ready
    && Edited(p.arrived[Start(p.arrived, e)..e]) == Edited(p.taken[Start(p.taken, n)..n])
    && Covers(p.taken[..n + 1], p.arrived[..e + 1])
  }

  lemma {:induction false} StartExact(items: seq<Item>, s: nat, n: nat)
    requires s <= n <= |items|
    requires s == 0 || Cuts(items[s - 1])
    requires forall i | s <= i < n :: !Cuts(items[i])
    ensures Start(items, n) == s
    decreases n
  {
    if s < n { StartExact(items, s, n - 1); }
  }

  lemma {:induction false} StartUncut(items: seq<Item>, n: nat)
    requires n <= |items|
    ensures Start(items, n) == 0 || Cuts(items[Start(items, n) - 1])
    ensures forall i | Start(items, n) <= i < n :: !Cuts(items[i])
  {
    if n != 0 && !Cuts(items[n - 1]) { StartUncut(items, n - 1); }
  }

  lemma {:induction false} EditedWhole(run: seq<Item>)
    requires Edited(run).Some?
    ensures Hole !in run
    decreases |run|
  {
    if run != [] {
      EditedWhole(run[..|run| - 1]);
      assert run == run[..|run| - 1] + [run[|run| - 1]];
    }
  }

  lemma LineArrived(p: Port, s: nat, n: nat) returns (e: nat)
    requires Faithful(p) && s <= n < |p.taken| && Hole !in p.taken[s..n] && Cuts(p.taken[n])
    requires s == 0 || Cuts(p.taken[s - 1])
    ensures n - s <= e < |p.arrived| && p.arrived[e - (n - s)..e + 1] == p.taken[s..n + 1]
    ensures s == 0 ==> e == n
    ensures s > 0 ==> e > n - s && p.arrived[e - (n - s) - 1] == p.taken[s - 1]
    ensures Covers(p.taken[..n + 1], p.arrived[..e + 1])
  {
    assert p.taken[s..n + 1] == p.taken[s..n] + [p.taken[n]];
    var a := TakenContiguous(p, s, n + 1);
    e := a + (n - s);
    assert s == 0 ==> p.taken[..s] == [];
  }

  lemma SameItems(xs: seq<Item>, a: nat, ys: seq<Item>, s: nat, length: nat)
    requires a + length <= |xs| && s + length <= |ys| && xs[a..a + length] == ys[s..s + length]
    ensures forall i | a <= i < a + length :: xs[i] == ys[i - a + s]
  {
    forall i | a <= i < a + length ensures xs[i] == ys[i - a + s] {
      assert xs[i] == xs[a..a + length][i - a] && ys[i - a + s] == ys[s..s + length][i - a];
    }
  }

  lemma RunMatches(ys: seq<Item>, n: nat, xs: seq<Item>, e: nat, s: nat)
    requires s <= n < |ys| && n - s <= e < |xs| && xs[e - (n - s)..e + 1] == ys[s..n + 1]
    requires forall i | s <= i < n :: !Cuts(ys[i])
    requires (s == 0 && e == n) || (s > 0 && e > n - s && xs[e - (n - s) - 1] == ys[s - 1] && Cuts(ys[s - 1]))
    ensures Start(xs, e) == e - (n - s) && xs[Start(xs, e)..e] == ys[s..n] && xs[e] == ys[n]
  {
    hide Cuts, Start;
    var a := e - (n - s);
    SameItems(xs, a, ys, s, n + 1 - s);
    StartExact(xs, a, e);
  }

  lemma FoldedMatches(cr: bool, ys: seq<Item>, n: nat, xs: seq<Item>, e: nat, s: nat)
    requires s <= n < |ys| && n - s <= e < |xs| && xs[e - (n - s)..e + 1] == ys[s..n + 1]
    requires (s == 0 && e == n) || (s > 0 && e > n - s && xs[e - (n - s) - 1] == ys[s - 1])
    ensures Folded(cr, xs, e) == Folded(cr, ys, n)
  {
    SameItems(xs, e - (n - s), ys, s, n + 1 - s);
  }

  lemma LineMatches(p: Port, cr: bool, n: nat, e: nat)
    requires n < |p.taken| && EventAt(cr, p.taken, n) == Ready
    requires var s := Start(p.taken, n);
             && n - s <= e < |p.arrived| && p.arrived[e - (n - s)..e + 1] == p.taken[s..n + 1]
             && (s == 0 ==> e == n)
             && (s > 0 ==> e > n - s && p.arrived[e - (n - s) - 1] == p.taken[s - 1])
             && Covers(p.taken[..n + 1], p.arrived[..e + 1])
    ensures SameLine(p, cr, n, e)
  {
    hide Edited, Covers, Start, Cuts, Folded;
    var s := Start(p.taken, n);
    StartUncut(p.taken, n);
    RunMatches(p.taken, n, p.arrived, e, s);
    FoldedMatches(cr, p.taken, n, p.arrived, e, s);
  }

  lemma ReadyArrived(p: Port, cr: bool, n: nat)
    requires Faithful(p) && n < |p.taken| && EventAt(cr, p.taken, n) == Ready
    ensures exists e :: SameLine(p, cr, n, e)
  {
    hide Faithful, Edited, Covers, Start, SameLine;
    var s := Start(p.taken, n);
    EditedWhole(p.taken[s..n]);
    StartUncut(p.taken, n);
    var e := LineArrived(p, s, n);
    LineMatches(p, cr, n, e);
  }

  // For any interleaving of arrival, overflow, loss and take, a line is accepted
  // only if it came in whole: it is a line of the bytes as they arrived, between
  // the same delimiters, and nothing inside it was lost.
  lemma GapSafe(ops: seq<Op>, m: nat, cr: bool, n: nat)
    requires m <= |ops| && n < |PortAt(ops, m).taken|
    requires Step(LineAt(cr, PortAt(ops, m).taken, n), PortAt(ops, m).taken[n]).1 == Ready
    ensures exists e :: SameLine(PortAt(ops, m), cr, n, e)
  {
    hide PortAt, LineAt, Step, Faithful, SameLine;
    QueueFaithful(ops, m);
    EventExact(cr, PortAt(ops, m).taken, n);
    ReadyArrived(PortAt(ops, m), cr, n);
  }

  // ---------- echo ----------

  // A display line and its cursor.
  datatype Screen = Screen(cells: Bytes, cursor: nat)

  function Put(s: Screen, b: u8): Screen
    requires s.cursor <= |s.cells|
    ensures Put(s, b).cursor <= |Put(s, b).cells|
  {
    if b == BACKSPACE then s.(cursor := if s.cursor == 0 then 0 else s.cursor - 1)
    else if b == CR then s.(cursor := 0)
    else if b == LF then Screen([], 0)
    else if s.cursor < |s.cells| then Screen(s.cells[s.cursor := b], s.cursor + 1)
    else Screen(s.cells + [b], s.cursor + 1)
  }

  function Display(s: Screen, bytes: Bytes): Screen
    requires s.cursor <= |s.cells|
    ensures Display(s, bytes).cursor <= |Display(s, bytes).cells|
    decreases |bytes|
  {
    if bytes == [] then s else Display(Put(s, bytes[0]), bytes[1..])
  }

  function Input(l: Line, b: u8): (Line, Event, Bytes) {
    var previous := if l.completed then 0 else |l.text|;
    var (next, event) := Fed(l, b);
    var echo := if event == Ready || event == Rejected then [CR, LF]
                else if event == Cancelled then [CARET, LETTER_C, CR, LF]
                else if !next.rejected && Erases(b) && |next.text| < previous then [BACKSPACE, SPACE, BACKSPACE]
                else if !next.rejected && |next.text| == previous + 1 then [if b == TAB then SPACE else b]
                else [];
    (next, event, echo)
  }

  // A tab takes one cell.
  function Shown(text: Bytes): Bytes {
    seq(|text|, i requires 0 <= i < |text| => if text[i] == TAB then SPACE else text[i])
  }

  ghost predicate Shows(s: Screen, prompt: Bytes, text: Bytes) {
    && s.cursor <= |s.cells|
    && s.cells[..s.cursor] == prompt + Shown(text)
    && forall i | s.cursor <= i < |s.cells| :: s.cells[i] == SPACE
  }

  lemma TypedShows(s: Screen, prompt: Bytes, text: Bytes, b: u8)
    requires Shows(s, prompt, text) && Printable(b)
    ensures Shows(Put(s, if b == TAB then SPACE else b), prompt, text + [b])
  {
    assert Shown(text + [b]) == Shown(text) + [if b == TAB then SPACE else b];
  }

  lemma ErasedShows(s: Screen, prompt: Bytes, text: Bytes)
    requires Shows(s, prompt, text) && text != []
    ensures Shows(Put(Put(Put(s, BACKSPACE), SPACE), BACKSPACE), prompt, text[..|text| - 1])
  {
    assert Shown(text[..|text| - 1]) == Shown(text)[..|text| - 1];
  }

  lemma Displayed4(s: Screen, bytes: Bytes)
    requires s.cursor <= |s.cells| && |bytes| <= 4
    ensures |bytes| == 0 ==> Display(s, bytes) == s
    ensures |bytes| == 1 ==> Display(s, bytes) == Put(s, bytes[0])
    ensures |bytes| == 2 ==> Display(s, bytes) == Put(Put(s, bytes[0]), bytes[1])
    ensures |bytes| == 3 ==> Display(s, bytes) == Put(Put(Put(s, bytes[0]), bytes[1]), bytes[2])
    ensures |bytes| == 4 ==> Display(s, bytes) == Put(Put(Put(Put(s, bytes[0]), bytes[1]), bytes[2]), bytes[3])
  {
    hide Put;
    if |bytes| > 0 {
      var s1 := Put(s, bytes[0]);
      assert Display(s, bytes) == Display(s1, bytes[1..]);
      if |bytes| > 1 {
        var s2 := Put(s1, bytes[1]);
        assert bytes[1..][1..] == bytes[2..] && Display(s1, bytes[1..]) == Display(s2, bytes[2..]);
        if |bytes| > 2 {
          var s3 := Put(s2, bytes[2]);
          assert bytes[2..][1..] == bytes[3..] && Display(s2, bytes[2..]) == Display(s3, bytes[3..]);
          if |bytes| > 3 {
            assert bytes[3..][1..] == bytes[4..] && Display(s3, bytes[3..]) == Display(Put(s3, bytes[3]), bytes[4..]);
          }
        }
      }
    }
  }

  lemma EventFresh(s: Screen, echo: Bytes)
    requires s.cursor <= |s.cells| && (echo == [CR, LF] || echo == [CARET, LETTER_C, CR, LF])
    ensures Display(s, echo) == Screen([], 0)
  {
    Displayed4(s, echo);
  }

  // The echo keeps the display equal to the edited line; a rejected line is not
  // echoed; every event leaves the cursor on a fresh line.
  lemma EchoShowsLine(s: Screen, prompt: Bytes, l: Line, b: u8)
    requires Current(l).Some? ==> Shows(s, prompt, Current(l).value)
    requires s.cursor <= |s.cells|
    ensures var (next, event, echo) := Input(l, b);
            && |echo| <= 4
            && (event != Nothing ==> Display(s, echo) == Screen([], 0))
            && (event == Nothing && Current(next).Some? ==> Shows(Display(s, echo), prompt, Current(next).value))
            && (event == Nothing && Current(next).None? ==> echo == [])
  {
    hide Shows, Shown, Put, Display;
    var (next, event, echo) := Input(l, b);
    Displayed4(s, echo);
    if event != Nothing { EventFresh(s, echo); }
    if event == Nothing && Current(next).Some? && echo != [] {
      if Erases(b) { ErasedShows(s, prompt, Current(l).value); } else { TypedShows(s, prompt, Current(l).value, b); }
    }
  }

  // ---------- the C code ----------

  class Editor {
    const bytes: array<u8>
    var length: nat
    var rejected: bool
    var previousCr: bool
    var completed: bool

    constructor ()
      ensures Valid() && fresh(bytes) && View() == Line([], false, false, false)
    {
      bytes := new u8[LINE_CAPACITY](_ => 0);
      length, rejected, previousCr, completed := 0, false, false, false;
    }

    // The text is always followed by a terminator.
    ghost predicate Valid()
      reads this, bytes
    {
      bytes.Length == LINE_CAPACITY && length < LINE_CAPACITY && bytes[length] == 0
    }

    ghost function View(): Line
      requires Valid()
      reads this, bytes
    {
      Line(bytes[..length], rejected, previousCr, completed)
    }

    method Reset()
      requires Valid()
      modifies this, bytes
      ensures Valid() && View() == Emptied(old(View()))
    {
      length := 0;
      bytes[0] := 0;
      rejected := false;
      completed := false;
    }

    method Discard()
      requires Valid()
      modifies this, bytes
      ensures Valid() && View() == Discarded(old(View()))
    {
      Reset();
      rejected := true;
      previousCr := false;
    }

    method Shorten()
      requires Valid() && length > 0
      modifies this, bytes
      ensures Valid() && View() == old(View()).(text := old(View().text)[..old(length) - 1])
    {
      length := length - 1;
      bytes[length] := 0;
      assert bytes[..length] == old(bytes[..length])[..length];
    }

    method Extend(byte: u8)
      requires Valid() && length < LINE_CAPACITY - 1
      modifies this, bytes
      ensures Valid() && View() == old(View()).(text := old(View().text) + [byte])
    {
      bytes[length] := byte;
      length := length + 1;
      bytes[length] := 0;
      assert bytes[..length] == old(bytes[..length]) + [byte];
    }

    method Feed(byte: u8) returns (event: Event)
      requires Valid()
      modifies this, bytes
      ensures Valid() && (View(), event) == Fed(old(View()), byte)
    {
      if completed { Reset(); }
      if byte == LF && previousCr {
        previousCr := false;
        return Nothing;
      }
      previousCr := byte == CR;
      if byte == CTRL_C {
        Reset();
        return Cancelled;
      }
      if byte == CR || byte == LF {
        completed := true;
        return if rejected then Rejected else Ready;
      }
      if rejected { return Nothing; }
      if byte == BACKSPACE || byte == RUBOUT {
        if length != 0 { Shorten(); }
        return Nothing;
      }
      if (byte < 32 && byte != TAB) || byte > 126 || length == LINE_CAPACITY - 1 {
        Discard();
        return Nothing;
      }
      Extend(byte);
      return Nothing;
    }

    method TerminalInput(byte: u8) returns (event: Event, echo: Bytes)
      requires Valid()
      modifies this, bytes
      ensures Valid() && (View(), event, echo) == Input(old(View()), byte)
    {
      var previousLength := if completed then 0 else length;
      echo := [];
      event := Feed(byte);
      if event == Ready || event == Rejected {
        echo := [CR, LF];
      } else if event == Cancelled {
        echo := [CARET, LETTER_C, CR, LF];
      } else if !rejected && (byte == BACKSPACE || byte == RUBOUT) && length < previousLength {
        echo := [BACKSPACE, SPACE, BACKSPACE];
      } else if !rejected && length == previousLength + 1 {
        echo := [if byte == TAB then SPACE else byte];
      }
    }
  }
}

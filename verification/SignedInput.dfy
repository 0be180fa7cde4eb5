// lib/signed_input.c: the frame reader for signed packets, hex() of
// tools/operator.c that prints them, and the whole path of a command from the
// operator's encoding to the administrator's admission.

module SignedInput {
  import opened Words
  import opened Codec
  import opened Serial
  import opened LineEditor
  import opened Policy
  import opened AdminReceipt
  import A = Admin

  const PACKET := 192
  const DIGITS := 384

  // ---------- hexadecimal ----------

  predicate Hex(b: u8) { 48 <= b <= 57 || 97 <= b <= 102 }

  function Nibble(b: u8): (n: u8)
    requires Hex(b)
    ensures n < 16
  {
    if b <= 57 then b - 48 else b - 87
  }

  function HexDigit(n: u8): (b: u8)
    requires n < 16
    ensures Hex(b) && Nibble(b) == n
  {
    if n < 10 then n + 48 else n + 87
  }

  predicate AllHex(text: Bytes) { forall i | 0 <= i < |text| :: Hex(text[i]) }

  function Hexed(bs: Bytes): (text: Bytes)
    ensures |text| == 2 * |bs|
  {
    seq(2 * |bs|, i requires 0 <= i < 2 * |bs| =>
          if i % 2 == 0 then HexDigit(bs[i / 2] / 16) else HexDigit(bs[i / 2] % 16))
  }

  // A packet after these digits: high nibble first, zero where none came yet.
  function Filled(text: Bytes): (bs: Bytes)
    requires |text| <= DIGITS && AllHex(text)
    ensures |bs| == PACKET
  {
    seq(PACKET, i requires 0 <= i < PACKET =>
          if 2 * i + 1 < |text| then 16 * Nibble(text[2 * i]) + Nibble(text[2 * i + 1])
          else if 2 * i < |text| then 16 * Nibble(text[2 * i]) else 0)
  }

  lemma HexRoundTrip(bs: Bytes)
    requires |bs| == PACKET
    ensures AllHex(Hexed(bs)) && Filled(Hexed(bs)) == bs
  {
    forall i | 0 <= i < PACKET ensures Filled(Hexed(bs))[i] == bs[i] {
      assert (2 * i) / 2 == i && (2 * i + 1) / 2 == i && (2 * i) % 2 == 0 && (2 * i + 1) % 2 == 1;
      assert Hexed(bs)[2 * i] == HexDigit(bs[i] / 16) && Hexed(bs)[2 * i + 1] == HexDigit(bs[i] % 16);
    }
  }

  // ---------- the frame ----------

  // `text` are the digits of the frame so far.
  datatype Frame = Frame(text: Bytes, rejected: bool, cr: bool, completed: bool)

  const DISCARDED := Frame([], true, false, false)

  function Begun(cr: bool): Frame { Frame([], false, cr, false) }

  function FrameFed(f: Frame, b: u8): (Frame, Event, Bytes) {
    if f.completed then (f, Nothing, [])
    else if b == LF && f.cr then (f.(cr := false), Nothing, [])
    else
      var g := f.(cr := b == CR);
      if b == CTRL_C then (DISCARDED.(completed := true), Cancelled, [CARET, LETTER_C, CR, LF])
      else if Enters(b) then
        if !g.rejected && |g.text| == DIGITS then (g.(completed := true), Ready, [CR, LF])
        else (DISCARDED.(cr := g.cr, completed := true), Rejected, [CR, LF])
      else if g.rejected then (g, Nothing, [])
      else if !Hex(b) || |g.text| >= DIGITS then (DISCARDED, Nothing, [])
      else (g.(text := g.text + [b]), Nothing, [b])
  }

  function FrameStep(f: Frame, item: Item): (Frame, Event) {
    match item
    case Hole => (DISCARDED, Nothing)
    case Got(b) => var (g, event, _) := FrameFed(f, b); (g, event)
  }

  function FrameAt(cr: bool, items: seq<Item>, n: nat): Frame
    requires n <= |items|
  {
    if n == 0 then Begun(cr) else FrameStep(FrameAt(cr, items, n - 1), items[n - 1]).0
  }

  // The frame's own digits start after the line feed that belongs to the command
  // that opened it.
  function Lead(cr: bool, items: seq<Item>, n: nat): (k: nat)
    requires n <= |items|
    ensures k <= n
  {
    if cr && n > 0 && items[0] == Got(LF) then 1 else 0
  }

  predicate HexItems(items: seq<Item>) { forall i | 0 <= i < |items| :: items[i].Got? && Hex(items[i].byte) }

  function BytesOf(items: seq<Item>): Bytes
    requires HexItems(items)
  {
    seq(|items|, i requires 0 <= i < |items| => items[i].byte)
  }

  // Nothing but digits so far, and not too many.
  predicate Clean(cr: bool, items: seq<Item>, n: nat)
    requires n <= |items|
  {
    var k := Lead(cr, items, n); HexItems(items[k..n]) && n - k <= DIGITS
  }

  lemma FrameStepState(cr: bool, items: seq<Item>, n: nat, f: Frame)
    requires n < |items|
    requires if Clean(cr, items, n) then
               !f.rejected && !f.completed && f.text == BytesOf(items[Lead(cr, items, n)..n])
               && f.cr == (cr && n == 0)
             else f.rejected || f.completed
    ensures var g := FrameStep(f, items[n]).0;
            if Clean(cr, items, n + 1) then
              !g.rejected && !g.completed && g.text == BytesOf(items[Lead(cr, items, n + 1)..n + 1]) && !g.cr
            else g.rejected || g.completed
  {
    var k, l := Lead(cr, items, n), Lead(cr, items, n + 1);
    if n == 0 {
      assert items[l..1] == if l == 1 then [] else [items[0]];
    } else {
      assert k == l && items[k..n + 1] == items[k..n] + [items[n]];
      if Clean(cr, items, n + 1) {
        assert forall i | 0 <= i < n - k :: items[k..n][i] == items[k..n + 1][i];
        assert items[k..n + 1][n - k] == items[n];
      }
    }
  }

  lemma {:induction false} FrameState(cr: bool, items: seq<Item>, n: nat)
    requires n <= |items|
    ensures var f := FrameAt(cr, items, n);
            if Clean(cr, items, n) then
              !f.rejected && !f.completed && f.text == BytesOf(items[Lead(cr, items, n)..n])
              && f.cr == (cr && n == 0)
            else f.rejected || f.completed
    ensures var f := FrameAt(cr, items, n);
            |f.text| <= DIGITS && AllHex(f.text) && (f.completed && !f.rejected ==> |f.text| == DIGITS)
  {
    if n > 0 {
      FrameState(cr, items, n - 1);
      FrameStepState(cr, items, n - 1, FrameAt(cr, items, n - 1));
    }
  }

  // A frame is accepted exactly when its items are 384 lowercase hex digits and
  // Enter, with no loss among them; the digits then determine the packet.
  lemma FrameExact(cr: bool, items: seq<Item>, n: nat)
    requires n < |items|
    ensures var f, k := FrameAt(cr, items, n), Lead(cr, items, n);
            var (g, event) := FrameStep(f, items[n]);
            && (event == Ready <==> n - k == DIGITS && HexItems(items[k..n]) && items[n].Got? && Enters(items[n].byte))
            && (event == Ready ==> g.text == BytesOf(items[k..n]) && |g.text| == DIGITS && AllHex(g.text))
  {
    hide HexItems, AllHex;
    FrameState(cr, items, n);
  }

  // ---------- completion ----------

  lemma FrameEvents(f: Frame, item: Item)
    requires !f.completed
    ensures var (g, event) := FrameStep(f, item);
            && (event == Nothing ==> !g.completed)
            && (event != Nothing ==> Cuts(item) && g.cr == (item == Got(CR)))
            && (event == Cancelled ==> item == Got(CTRL_C))
            && (event == Rejected ==> item.Got? && Enters(item.byte))
  {
  }

  function FrameEvent(cr: bool, items: seq<Item>, n: nat): Event
    requires n < |items|
  {
    FrameStep(FrameAt(cr, items, n), items[n]).1
  }

  // A completed frame ignores every byte.
  lemma {:induction false} CompletedKept(cr: bool, items: seq<Item>, m: nat, n: nat)
    requires m <= n <= |items| && FrameAt(cr, items, m).completed && Hole !in items[m..n]
    ensures FrameAt(cr, items, n) == FrameAt(cr, items, m)
    decreases n
  {
    if m < n {
      assert items[m..n] == items[m..n - 1] + [items[n - 1]];
      CompletedKept(cr, items, m, n - 1);
    }
  }

  // After a loss the frame waits, rejected, for a delimiter or Ctrl-C.
  lemma {:induction false} LossWaits(cr: bool, items: seq<Item>, j: nat, n: nat)
    requires j < n <= |items| && items[j] == Hole && forall i | j < i < n :: !Cuts(items[i])
    ensures FrameAt(cr, items, n) == DISCARDED
    decreases n
  {
    if j + 1 < n { LossWaits(cr, items, j, n - 1); }
  }

  // The first delimiter or Ctrl-C after a loss is an event.
  lemma {:induction false} LossThenCut(cr: bool, items: seq<Item>, j: nat, n: nat) returns (k: nat)
    requires j < n < |items| && items[j] == Hole && Cuts(items[n])
    ensures j < k <= n && FrameEvent(cr, items, k) != Nothing
    decreases n
  {
    if i: nat :| j < i < n && Cuts(items[i]) {
      k := LossThenCut(cr, items, j, i);
    } else {
      LossWaits(cr, items, j, n);
      k := n;
    }
  }

  lemma EventNeedsLoss(cr: bool, items: seq<Item>, m: nat, n: nat)
    requires m <= n < |items| && FrameAt(cr, items, m).completed && FrameEvent(cr, items, n) != Nothing
    ensures exists j :: m <= j < n && items[j] == Hole && Cuts(items[n])
  {
    hide FrameAt;
    if Hole !in items[m..n] {
      CompletedKept(cr, items, m, n);
    } else {
      var i :| 0 <= i < n - m && items[m..n][i] == Hole;
      assert items[m + i] == Hole;
    }
    FrameEvents(FrameAt(cr, items, n), items[n]);
  }

  lemma CleanBefore(cr: bool, items: seq<Item>, m: nat, n: nat)
    requires m <= n <= |items| && Clean(cr, items, n)
    ensures Clean(cr, items, m)
  {
    var k := Lead(cr, items, m);
    forall i | 0 <= i < m - k ensures items[k..m][i].Got? && Hex(items[k..m][i].byte) {
      assert items[k..m][i] == items[k..n][i];
    }
  }

  lemma NeverReadyAgain(cr: bool, items: seq<Item>, m: nat, n: nat)
    requires m <= n < |items| && FrameAt(cr, items, m).completed
    ensures FrameEvent(cr, items, n) != Ready
  {
    hide FrameAt, FrameStep;
    FrameState(cr, items, m);
    FrameExact(cr, items, n);
    if FrameEvent(cr, items, n) == Ready { CleanBefore(cr, items, m, n); }
  }

  // Exactly when completion is one-shot: a completed frame yields another event,
  // without a new frame being begun, if and only if a loss is reported and a
  // delimiter or Ctrl-C comes after it. That event never accepts the frame again.
  lemma OneShotExactly(cr: bool, items: seq<Item>, m: nat)
    requires m <= |items| && FrameAt(cr, items, m).completed
    ensures (exists n :: m <= n < |items| && FrameEvent(cr, items, n) != Nothing)
            <==> (exists j, n :: m <= j < n < |items| && items[j] == Hole && Cuts(items[n]))
    ensures forall n | m <= n < |items| :: FrameEvent(cr, items, n) != Ready
  {
    hide FrameStep, FrameAt, Cuts, FrameEvent;
    forall n | m <= n < |items| && FrameEvent(cr, items, n) != Nothing
      ensures exists j :: m <= j < n && items[j] == Hole && Cuts(items[n])
    {
      EventNeedsLoss(cr, items, m, n);
    }
    if j: nat, n: nat :| m <= j < n < |items| && items[j] == Hole && Cuts(items[n]) {
      var k := LossThenCut(cr, items, j, n);
    }
    forall n | m <= n < |items| ensures FrameEvent(cr, items, n) != Ready { NeverReadyAgain(cr, items, m, n); }
  }

  lemma FrameAtNext(cr: bool, items: seq<Item>, n: nat)
    requires n < |items|
    ensures FrameAt(cr, items, n + 1) == FrameStep(FrameAt(cr, items, n), items[n]).0
  {
  }

  lemma SentReady(text: Bytes, more: seq<Item>)
    requires |text| == DIGITS && AllHex(text)
    ensures var items := Gots(text) + [Got(CR)] + more;
            FrameEvent(false, items, DIGITS) == Ready && FrameStep(FrameAt(false, items, DIGITS), items[DIGITS]).0.completed
  {
    hide FrameAt;
    var items := Gots(text) + [Got(CR)] + more;
    assert items[0] == Got(text[0]) && Hex(text[0]);
    assert items[0..DIGITS] == Gots(text);
    FrameExact(false, items, DIGITS);
  }

  // The case that breaks it: 384 digits and Enter are accepted, a second Enter is
  // ignored, but with a loss before it the frame is rejected after all.
  lemma LossReopens(text: Bytes)
    requires |text| == DIGITS && AllHex(text)
    ensures var sent := Gots(text) + [Got(CR)];
            && FrameEvent(false, sent + [Got(CR)], DIGITS) == Ready
            && FrameEvent(false, sent + [Got(CR)], DIGITS + 1) == Nothing
            && FrameEvent(false, sent + [Hole, Got(CR)], DIGITS) == Ready
            && FrameEvent(false, sent + [Hole, Got(CR)], DIGITS + 2) == Rejected
  {
    hide FrameAt;
    var sent := Gots(text) + [Got(CR)];
    SentReady(text, [Got(CR)]);
    SentReady(text, [Hole, Got(CR)]);
    FrameAtNext(false, sent + [Got(CR)], DIGITS);
    LossWaits(false, sent + [Hole, Got(CR)], DIGITS + 1, DIGITS + 2);
  }

  // ---------- from digits to command ----------

  // The digits are the printed form of the packet, and of no other.
  lemma TextRoundTrip(text: Bytes)
    requires |text| == DIGITS && AllHex(text)
    ensures Hexed(Filled(text)) == text
  {
    forall i | 0 <= i < DIGITS ensures Hexed(Filled(text))[i] == text[i] {
      var high, low := Nibble(text[2 * (i / 2)]), Nibble(text[2 * (i / 2) + 1]);
      assert Filled(text)[i / 2] == 16 * high + low;
      assert (16 * high + low) / 16 == high && (16 * high + low) % 16 == low;
    }
  }

  ghost predicate ArrivedAt(p: Port, a: nat, run: seq<Item>) {
    a + |run| <= |p.arrived| && p.arrived[a..a + |run|] == run
  }

  // The taken items from lo to hi arrived next to each other.
  ghost predicate Together(p: Port, lo: nat, hi: nat)
    requires lo <= hi <= |p.taken|
  {
    exists a :: ArrivedAt(p, a, p.taken[lo..hi])
  }

  lemma WholeTogether(p: Port, lo: nat, hi: nat)
    requires Faithful(p) && lo <= hi <= |p.taken| && Hole !in p.taken[lo..hi]
    ensures Together(p, lo, hi)
  {
    hide Faithful;
    var a := TakenContiguous(p, lo, hi);
    assert ArrivedAt(p, a, p.taken[lo..hi]);
  }

  lemma HexItemsWhole(items: seq<Item>, enter: Item)
    requires HexItems(items) && enter.Got?
    ensures Hole !in items + [enter]
  {
  }

  // A frame is accepted only as 384 items before its Enter, none of them a loss.
  lemma FrameWhole(taken: seq<Item>, cr: bool, s: nat, n: nat)
    requires s <= n < |taken|
    requires FrameStep(FrameAt(cr, taken[s..], n - s), taken[s..][n - s]).1 == Ready
    ensures n >= DIGITS && Hole !in taken[n - DIGITS..n + 1]
  {
    hide FrameAt, FrameStep, HexItems;
    var items := taken[s..];
    FrameExact(cr, items, n - s);
    var lead := Lead(cr, items, n - s);
    HexItemsWhole(items[lead..n - s], items[n - s]);
    assert taken[n - DIGITS..n + 1] == items[lead..n - s] + [items[n - s]];
  }

  // Behind the ring: the digits of an accepted frame, and its Enter, arrived next
  // to each other.
  lemma FrameArrived(ops: seq<Op>, m: nat, cr: bool, s: nat, n: nat)
    requires m <= |ops| && s <= n < |PortAt(ops, m).taken|
    requires var items := PortAt(ops, m).taken[s..]; FrameStep(FrameAt(cr, items, n - s), items[n - s]).1 == Ready
    ensures n >= DIGITS && Together(PortAt(ops, m), n - DIGITS, n + 1)
  {
    hide PortAt, FrameAt, FrameStep, Faithful, Together;
    QueueFaithful(ops, m);
    FrameWhole(PortAt(ops, m).taken, cr, s, n);
    WholeTogether(PortAt(ops, m), n - DIGITS, n + 1);
  }

  lemma HexTyped(cr: bool, bs: Bytes)
    requires |bs| == PACKET
    ensures var typed := Gots(Hexed(bs)) + [Got(CR)];
            && |typed| == DIGITS + 1
            && FrameStep(FrameAt(cr, typed, DIGITS), typed[DIGITS]).1 == Ready
            && FrameStep(FrameAt(cr, typed, DIGITS), typed[DIGITS]).0.text == Hexed(bs)
  {
    hide FrameAt, FrameStep, Hexed, Filled;
    HexRoundTrip(bs);
    var text := Hexed(bs);
    var typed := Gots(text) + [Got(CR)];
    assert typed[0] == Got(text[0]) && Hex(text[0]);
    assert typed[0..DIGITS] == Gots(text);
    assert BytesOf(Gots(text)) == text;
    FrameExact(cr, typed, DIGITS);
  }

  // Every valid command survives the whole path: the operator's canonical
  // encoding and signature, printed in hex, typed with Enter, packed into 24
  // words and unpacked again, is admitted as the very command.
  lemma PipelineRecovers(a: A.Adm, c: Command, signature: Bytes, verify: A.Verifier, cr: bool)
    requires A.Ready(a) && a.pending == 0 && !a.exhausted
    requires ExecutionValid(c) && c.sequence == a.next && |signature| == 64
    requires verify(a.key, A.Canonical(a.realm, a.boot, c), signature)
    ensures |A.Canonical(a.realm, a.boot, c) + signature| == PACKET
    ensures var packet := A.Canonical(a.realm, a.boot, c) + signature;
            var typed := Gots(Hexed(packet)) + [Got(CR)];
            && |typed| == DIGITS + 1
            && FrameStep(FrameAt(cr, typed, DIGITS), typed[DIGITS]).1 == Ready
            && var text := FrameStep(FrameAt(cr, typed, DIGITS), typed[DIGITS]).0.text;
            && |text| == DIGITS && AllHex(text) && Filled(text) == packet
            && A.Fields(Filled(text)) == c
            && |Packed(Filled(text))| == 24
            && A.Admitted(a, Unpacked(Packed(Filled(text))), verify).1 == A.ACCEPTED
            && A.Admitted(a, Unpacked(Packed(Filled(text))), verify).2 == c
  {
    hide FrameAt, FrameStep, Filled, Hexed, A.Admitted, A.Canonical, Unpacked, Packed, AllHex;
    A.CanonicalDecodes(a.realm, a.boot, c, signature);
    var packet := A.Canonical(a.realm, a.boot, c) + signature;
    HexTyped(cr, packet);
    HexRoundTrip(packet);
    UnpackPacked(packet);
    A.CanonicalIsAccepted(a, c, signature, verify);
  }

  // ---------- the C code ----------

  // hex() of tools/operator.c, with its terminator.
  method PrintHex(bytes: Bytes, out: array<u8>)
    requires out.Length == 2 * |bytes| + 1
    modifies out
    ensures out[..] == Hexed(bytes) + [0]
  {
    hide HexDigit;
    var i := 0;
    while i < |bytes|
      invariant 0 <= i <= |bytes|
      invariant forall k | 0 <= k < 2 * i :: out[k] == Hexed(bytes)[k]
    {
      out[2 * i] := HexDigit(bytes[i] / 16);
      out[2 * i + 1] := HexDigit(bytes[i] % 16);
      i := i + 1;
    }
    out[2 * |bytes|] := 0;
    assert out[..2 * |bytes|] == Hexed(bytes);
    assert out[..] == out[..2 * |bytes|] + [0];
  }

  method SignedCommand(packet: Bytes) returns (c: Command)
    requires |packet| == PACKET
    ensures c == A.Fields(packet)
  {
    var sequence := Load64(packet, 80);
    var expected := Load64(packet, 120);
    var op := Load64(packet, 88);
    var subject := Load64(packet, 96);
    var obj := Load64(packet, 104);
    var rights := Load64(packet, 112);
    return Command(sequence, expected, Request(op, subject, obj, rights, 0));
  }

  class Reader {
    const packet: array<u8>
    var digits: nat
    var rejected: bool
    var previousCr: bool
    var completed: bool
    ghost var text: Bytes

    constructor ()
      ensures Valid() && fresh(packet) && View() == Begun(false)
    {
      packet := new u8[PACKET](_ => 0);
      digits, rejected, previousCr, completed, text := 0, false, false, false, [];
    }

    ghost predicate Valid()
      reads this, packet
    {
      && packet.Length == PACKET && |text| <= DIGITS && AllHex(text) && digits == |text|
      && packet[..] == Filled(text)
    }

    ghost function View(): Frame
      reads this
    {
      Frame(text, rejected, previousCr, completed)
    }

    method Zero()
      requires packet.Length == PACKET
      modifies this, packet
      ensures Valid() && View() == Begun(false)
    {
      forall i | 0 <= i < packet.Length { packet[i] := 0; }
      digits, rejected, previousCr, completed, text := 0, false, false, false, [];
    }

    method Begin(cr: bool)
      requires Valid()
      modifies this, packet
      ensures Valid() && View() == Begun(cr)
    {
      Zero();
      previousCr := cr;
    }

    method Discard()
      requires Valid()
      modifies this, packet
      ensures Valid() && View() == DISCARDED
    {
      Zero();
      rejected := true;
    }

    // OR-ing the low nibble into a byte whose low nibble is zero is adding it.
    method Store(byte: u8, nibble: u8)
      requires Valid() && Hex(byte) && nibble == Nibble(byte) && digits < 2 * PACKET
      modifies this, packet
      ensures Valid() && View() == old(View()).(text := old(text) + [byte])
    {
      var i := digits / 2;
      if digits % 2 != 0 {
        assert packet[i] == Filled(text)[i];
        packet[i] := packet[i] + nibble;
      } else {
        packet[i] := nibble * 16;
      }
      digits := digits + 1;
      text := text + [byte];
    }

    method Feed(byte: u8) returns (event: Event, echo: Bytes)
      requires Valid()
      modifies this, packet
      ensures Valid() && (View(), event, echo) == FrameFed(old(View()), byte)
      ensures event == Ready ==> packet[..] == Filled(View().text) && |View().text| == DIGITS
    {
      hide Filled;
      event, echo := Nothing, [];
      if completed { return; }
      if byte == LF && previousCr {
        previousCr := false;
        return;
      }
      previousCr := byte == CR;
      if byte == CTRL_C {
        Discard();
        completed := true;
        event, echo := Cancelled, [CARET, LETTER_C, CR, LF];
      } else if byte == CR || byte == LF {
        var valid := !rejected && digits == 2 * PACKET;
        if !valid {
          var cr := previousCr;
          Discard();
          previousCr := cr;
        }
        completed := true;
        event := if valid then Ready else LineEditor.Rejected;
        echo := [CR, LF];
      } else if !rejected {
        var nibble: u8 := 0;
        if byte >= 48 && byte <= 57 {
          nibble := byte - 48;
        } else if byte >= 97 && byte <= 102 {
          nibble := byte - 97 + 10;
        } else {
          Discard();
          return;
        }
        if digits >= 2 * PACKET {
          Discard();
          return;
        }
        Store(byte, nibble);
        echo := [byte];
      }
    }
  }
}

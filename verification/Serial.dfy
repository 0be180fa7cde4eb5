// lib/serial.c: the receive ring between the UART driver and the terminal. It
// may lose bytes, but never silently: a loss drops everything older than it.

module Serial {
  import opened Words
  import opened Codec

  const RING := 256

  // A byte, or the mark of at least one lost byte.
  datatype Item = Got(byte: u8) | Hole

  datatype Rx = Rx(queue: Bytes, lost: bool)

  const EMPTY := Rx([], false)

  function Lossy(rx: Rx): Rx { Rx([], true) }

  function Received(rx: Rx, b: u8): Rx {
    if |rx.queue| == RING then Rx([b], true) else Rx(rx.queue + [b], rx.lost)
  }

  function Remaining(rx: Rx): Rx { Rx(if rx.queue == [] then [] else rx.queue[1..], false) }

  // What one take hands over: a loss flag first, then a byte.
  function Delivered(rx: Rx): seq<Item> {
    (if rx.lost then [Hole] else []) + if rx.queue == [] then [] else [Got(rx.queue[0])]
  }

  // ---------- runs ----------

  // The driver receives bytes and notices losses in the line; the terminal takes.
  datatype Op = Receive(byte: u8) | Lose | Take

  // `arrived` is what came over the wire, bytes lost there included; `taken` is
  // what the terminal has been given.
  datatype Port = Port(rx: Rx, arrived: seq<Item>, taken: seq<Item>)

  const OPENED := Port(EMPTY, [], [])

  function Done(p: Port, op: Op): Port {
    match op
    case Receive(b) => Port(Received(p.rx, b), p.arrived + [Got(b)], p.taken)
    case Lose => Port(Lossy(p.rx), p.arrived + [Hole], p.taken)
    case Take => Port(Remaining(p.rx), p.arrived, p.taken + Delivered(p.rx))
  }

  function PortAt(ops: seq<Op>, n: nat): Port
    requires n <= |ops|
  {
    if n == 0 then OPENED else Done(PortAt(ops, n - 1), ops[n - 1])
  }

  function Gots(q: Bytes): seq<Item> { seq(|q|, i requires 0 <= i < |q| => Got(q[i])) }

  // o is h with some nonempty segments each replaced by one Hole, and every Hole
  // of h is inside such a segment.
  ghost predicate Covers(o: seq<Item>, h: seq<Item>)
    decreases |o|
  {
    if o == [] then h == []
    else
      match o[|o| - 1]
      case Got(b) => h != [] && h[|h| - 1] == Got(b) && Covers(o[..|o| - 1], h[..|h| - 1])
      case Hole => exists k | 0 <= k < |h| :: Covers(o[..|o| - 1], h[..k])
  }

  function Held(rx: Rx): seq<Item> { (if rx.lost then [Hole] else []) + Gots(rx.queue) }

  // What was taken, and then what is held, account for everything that arrived.
  ghost predicate Faithful(p: Port) {
    |p.rx.queue| <= RING && Covers(p.taken + Held(p.rx), p.arrived)
  }

  lemma CoversSnoc(o: seq<Item>, h: seq<Item>, b: u8)
    requires Covers(o, h)
    ensures Covers(o + [Got(b)], h + [Got(b)])
  {
    assert (o + [Got(b)])[..|o|] == o && (h + [Got(b)])[..|h|] == h;
  }

  lemma CoversHole(o: seq<Item>, h: seq<Item>, k: nat)
    requires k < |h| && Covers(o, h[..k])
    ensures Covers(o + [Hole], h)
  {
    assert (o + [Hole])[..|o|] == o;
  }

  // The bytes at the end of a covering are the last bytes covered.
  lemma {:induction false} CoversSuffix(o: seq<Item>, s: nat, h: seq<Item>)
    requires Covers(o, h) && s <= |o| && Hole !in o[s..]
    ensures var a := |h| - (|o| - s); a >= 0 && h[a..] == o[s..] && Covers(o[..s], h[..a])
    decreases |o|
  {
    if s == |o| {
      assert o[..s] == o && h[..|h|] == h;
    } else {
      var m, l := |o| - 1, |h| - 1;
      assert o[m] == o[s..][m - s];
      assert Hole !in o[..m][s..] by {
        forall i | 0 <= i < m - s ensures o[..m][s..][i] != Hole { assert o[s..][i] != Hole; }
      }
      CoversSuffix(o[..m], s, h[..l]);
      var a := |h| - (|o| - s);
      assert o[..m][..s] == o[..s] && h[..l][..a] == h[..a];
      assert o[s..] == o[..m][s..] + [o[m]] && h[a..] == h[..l][a..] + [h[l]];
    }
  }

  // Dropping what is held leaves the taken items covering an earlier part.
  lemma HeldDropped(p: Port) returns (k: nat)
    requires Faithful(p)
    ensures k + |p.rx.queue| <= |p.arrived| && Covers(p.taken, p.arrived[..k])
  {
    var o, s := p.taken + Held(p.rx), |p.taken| + if p.rx.lost then 1 else 0;
    assert o[s..] == Gots(p.rx.queue);
    CoversSuffix(o, s, p.arrived);
    k := |p.arrived| - |p.rx.queue|;
    if p.rx.lost {
      assert o[..s][..|p.taken|] == p.taken && o[..s][|p.taken|] == Hole;
      var j :| 0 <= j < |p.arrived[..k]| && Covers(p.taken, p.arrived[..k][..j]);
      assert p.arrived[..k][..j] == p.arrived[..j];
      k := j;
    } else {
      assert o[..s] == p.taken;
    }
  }

  lemma HeldMore(rx: Rx, b: u8)
    ensures Held(rx.(queue := rx.queue + [b])) == Held(rx) + [Got(b)]
    ensures Held(Rx([], true)) == [Hole] && [] + [b] == [b]
  {
    assert Gots(rx.queue + [b]) == Gots(rx.queue) + [Got(b)];
  }

  lemma ReceivedFaithful(p: Port, b: u8)
    requires Faithful(p)
    ensures Faithful(Done(p, Receive(b)))
  {
    hide Covers, Gots;
    if |p.rx.queue| < RING {
      CoversSnoc(p.taken + Held(p.rx), p.arrived, b);
      HeldMore(p.rx, b);
      assert p.taken + Held(Received(p.rx, b)) == p.taken + Held(p.rx) + [Got(b)];
    } else {
      var k := HeldDropped(p);
      CoversHole(p.taken, p.arrived, k);
      CoversSnoc(p.taken + [Hole], p.arrived, b);
      HeldMore(Rx([], true), b);
      assert p.taken + Held(Received(p.rx, b)) == p.taken + [Hole] + [Got(b)];
    }
  }

  lemma LostFaithful(p: Port)
    requires Faithful(p)
    ensures Faithful(Done(p, Lose))
  {
    hide Covers;
    var k := HeldDropped(p);
    assert (p.arrived + [Hole])[..k] == p.arrived[..k];
    CoversHole(p.taken, p.arrived + [Hole], k);
    assert Gots([]) == [];
    assert p.taken + Held(Lossy(p.rx)) == p.taken + [Hole];
  }

  lemma TakenFaithful(p: Port)
    requires Faithful(p)
    ensures Faithful(Done(p, Take))
  {
    hide Covers;
    var q := p.rx.queue;
    assert q != [] ==> Gots(q) == [Got(q[0])] + Gots(q[1..]);
    assert p.taken + Delivered(p.rx) + Held(Remaining(p.rx)) == p.taken + Held(p.rx);
  }

  // The queue refinement: in any interleaving, the items taken are the arrivals
  // in order, with every lost stretch marked before the next byte after it.
  lemma {:induction false} QueueFaithful(ops: seq<Op>, n: nat)
    requires n <= |ops|
    ensures Faithful(PortAt(ops, n))
  {
    if n == 0 {
      assert OPENED.taken + Held(OPENED.rx) == [];
    } else {
      QueueFaithful(ops, n - 1);
      var p := PortAt(ops, n - 1);
      match ops[n - 1]
      case Receive(b) => ReceivedFaithful(p, b);
      case Lose => LostFaithful(p);
      case Take => TakenFaithful(p);
    }
  }

  lemma NoHoleHeld(q: Bytes)
    ensures Hole !in Gots(q) && Held(Rx(q, false)) == Gots(q)
  {
  }

  lemma CoversWhole(o: seq<Item>, h: seq<Item>)
    requires Covers(o, h) && Hole !in o
    ensures h == o
  {
    hide Covers;
    assert o[0..] == o;
    CoversSuffix(o, 0, h);
    assert h[0..] == h;
  }

  // If no loss was ever reported, the taken items are all the arrivals so far.
  lemma LosslessExact(ops: seq<Op>, n: nat)
    requires n <= |ops| && Hole !in PortAt(ops, n).taken && !PortAt(ops, n).rx.lost
    ensures PortAt(ops, n).arrived == PortAt(ops, n).taken + Gots(PortAt(ops, n).rx.queue)
  {
    hide PortAt, Covers, Gots;
    QueueFaithful(ops, n);
    var p := PortAt(ops, n);
    NoHoleHeld(p.rx.queue);
    CoversWhole(p.taken + Gots(p.rx.queue), p.arrived);
  }

  // The bytes still to be taken if nothing is ever dropped.
  function Backlog(ops: seq<Op>, n: nat): nat
    requires n <= |ops|
  {
    if n == 0 then 0
    else
      var before := Backlog(ops, n - 1);
      if ops[n - 1].Receive? then before + 1
      else if ops[n - 1].Take? && before > 0 then before - 1
      else before
  }

  // Operation k loses something: the line does, or there is no room.
  predicate Drops(ops: seq<Op>, k: nat)
    requires k < |ops|
  {
    ops[k] == Lose || (ops[k].Receive? && Backlog(ops, k) >= RING)
  }

  predicate Flagged(p: Port) { p.rx.lost || Hole in p.taken }

  lemma FlagStays(p: Port, op: Op)
    requires Flagged(p)
    ensures Flagged(Done(p, op))
  {
    if Hole in p.taken {
      var i :| 0 <= i < |p.taken| && p.taken[i] == Hole;
      assert Done(p, op).taken[i] == Hole;
    }
  }

  lemma FlagAppears(p: Port, op: Op)
    requires !Flagged(p) && |p.rx.queue| <= RING
    ensures Flagged(Done(p, op)) <==> op == Lose || (op.Receive? && |p.rx.queue| == RING)
  {
    assert Delivered(p.rx) == if p.rx.queue == [] then [] else [Got(p.rx.queue[0])];
  }

  ghost predicate Dropped(ops: seq<Op>, n: nat)
    requires n <= |ops|
  {
    exists k :: 0 <= k < n && Drops(ops, k)
  }

  lemma OpenedUnflagged()
    ensures !Flagged(OPENED)
  {
  }

  // A loss is reported exactly when there is one.
  lemma {:induction false} LossExactly(ops: seq<Op>, n: nat)
    requires n <= |ops|
    ensures Flagged(PortAt(ops, n)) <==> Dropped(ops, n)
    ensures !Flagged(PortAt(ops, n)) ==> |PortAt(ops, n).rx.queue| == Backlog(ops, n)
  {
    hide Flagged;
    if n > 0 {
      LossExactly(ops, n - 1);
      var p := PortAt(ops, n - 1);
      assert |p.rx.queue| <= RING by { QueueFaithful(ops, n - 1); }
      assert Dropped(ops, n) <==> Dropped(ops, n - 1) || Drops(ops, n - 1);
      if Flagged(p) { FlagStays(p, ops[n - 1]); } else { FlagAppears(p, ops[n - 1]); }
    } else {
      assert !Flagged(OPENED) by { OpenedUnflagged(); }
    }
  }

  // A terminal that keeps up with a sound line gets every byte: as long as no byte
  // is lost on the wire or arrives with the ring full, what it takes, and then
  // what the ring holds, is what arrived.
  lemma KeptUp(ops: seq<Op>, n: nat)
    requires n <= |ops| && forall k | 0 <= k < n :: !Drops(ops, k)
    ensures var p := PortAt(ops, n);
            !p.rx.lost && |p.rx.queue| == Backlog(ops, n) && p.arrived == p.taken + Gots(p.rx.queue)
  {
    hide PortAt, Drops;
    LossExactly(ops, n);
    LosslessExact(ops, n);
  }

  // The items handed over and those still held.
  function Stream(p: Port): seq<Item> { p.taken + Held(p.rx) }

  lemma TakeOutcome(p: Port)
    ensures var next := Done(p, Take);
            var more := (if p.rx.lost then 1 else 0) + if p.rx.queue != [] then 1 else 0;
            && Stream(next) == Stream(p) && |p.taken| + more <= |Stream(p)|
            && next.taken == Stream(p)[..|p.taken| + more]
  {
    var q := p.rx.queue;
    assert q != [] ==> Gots(q) == [Got(q[0])] + Gots(q[1..]);
    assert q == [] ==> Gots(q) == [];
  }

  // What each operation does to them, after a loss as before: a byte joins the end
  // while there is room, a loss replaces what is held by its mark, and a byte with
  // no room follows that mark. Taking hands over the next byte and any mark
  // before it.
  lemma StreamOutcome(p: Port, op: Op)
    requires |p.rx.queue| <= RING
    ensures var next := Done(p, op);
            && Stream(next) == (match op
                                case Receive(b) => if |p.rx.queue| < RING then Stream(p) + [Got(b)] else p.taken + [Hole, Got(b)]
                                case Lose => p.taken + [Hole]
                                case Take => Stream(p))
            && next.taken == (if op != Take then p.taken
                              else
                                var more := (if p.rx.lost then 1 else 0) + if p.rx.queue != [] then 1 else 0;
                                Stream(p)[..|p.taken| + more])
  {
    hide Gots;
    match op
    case Receive(b) =>
      HeldMore(p.rx, b);
      HeldMore(Rx([], true), b);
    case Lose => HeldMore(p.rx, 0);
    case Take => TakeOutcome(p);
  }

  lemma {:induction false} CoversPrefix(o: seq<Item>, h: seq<Item>, n: nat) returns (k: nat)
    requires Covers(o, h) && n <= |o|
    ensures k <= |h| && Covers(o[..n], h[..k])
    decreases |o|
  {
    if n == |o| {
      k := |h|;
      assert o[..n] == o && h[..k] == h;
    } else {
      var m := |o| - 1;
      var j := |h| - 1;
      if o[m] == Hole { j :| 0 <= j < |h| && Covers(o[..m], h[..j]); }
      k := CoversPrefix(o[..m], h[..j], n);
      assert o[..m][..n] == o[..n] && h[..j][..k] == h[..k];
    }
  }

  lemma CoversSlice(o: seq<Item>, s: nat, h: seq<Item>) returns (a: nat)
    requires Covers(o, h) && s <= |o| && Hole !in o[s..]
    ensures a + (|o| - s) == |h| && h[a..] == o[s..] && Covers(o[..s], h[..a])
  {
    hide Covers;
    CoversSuffix(o, s, h);
    a := |h| - (|o| - s);
  }

  // Items taken without a mark between them arrived next to each other.
  lemma TakenContiguous(p: Port, s: nat, n: nat) returns (a: nat)
    requires Faithful(p) && s <= n <= |p.taken| && Hole !in p.taken[s..n]
    ensures a + (n - s) <= |p.arrived| && p.arrived[a..a + (n - s)] == p.taken[s..n]
    ensures Covers(p.taken[..s], p.arrived[..a]) && Covers(p.taken[..n], p.arrived[..a + (n - s)])
  {
    hide Covers, Held;
    var o := p.taken + Held(p.rx);
    var k := CoversPrefix(o, p.arrived, n);
    assert o[..n] == p.taken[..n];
    a := CoversSlice(p.taken[..n], s, p.arrived[..k]);
    assert p.taken[..n][s..] == p.taken[s..n] && p.taken[..n][..s] == p.taken[..s];
    assert p.arrived[..k][..a] == p.arrived[..a] && p.arrived[..k][a..] == p.arrived[a..k];
  }

  // ---------- the C code ----------

  function Slot(head: nat, i: nat): (s: nat)
    ensures s < RING
  {
    (head + i) % RING
  }

  lemma SlotNext(head: nat, i: nat)
    requires head < RING
    ensures Slot((head + 1) % RING, i) == Slot(head, i + 1) && Slot(head, 0) == head
  {
    if head + 1 < RING {
      assert (head + 1) % RING == head + 1;
    } else {
      assert head + 1 == RING && (head + 1) % RING == 0;
      assert (RING + i) % RING == i % RING;
    }
  }

  lemma SlotApart(head: nat, i: nat, j: nat)
    requires i < j < RING
    ensures Slot(head, i) != Slot(head, j)
  {
  }

  class Ring {
    const bytes: array<u8>
    var head: nat
    var count: nat
    var lost: bool

    constructor ()
      ensures Valid() && fresh(bytes) && View() == EMPTY
    {
      bytes := new u8[RING](_ => 0);
      head, count, lost := 0, 0, false;
    }

    ghost predicate Valid()
      reads this
    {
      bytes.Length == RING && head < RING && count <= RING
    }

    ghost function View(): Rx
      requires Valid()
      reads this, bytes
    {
      Rx(seq(count, i requires 0 <= i < count && Valid() reads this, bytes => bytes[Slot(head, i)]), lost)
    }

    method Loss()
      requires Valid()
      modifies this
      ensures Valid() && View() == Lossy(old(View()))
    {
      head := 0;
      count := 0;
      lost := true;
    }

    method Receive(byte: u8)
      requires Valid()
      modifies this, bytes
      ensures Valid() && View() == Received(old(View()), byte)
    {
      if count == RING { Loss(); }
      forall i: nat, j: nat | i < j < RING ensures Slot(head, i) != Slot(head, j) {
        SlotApart(head, i, j);
      }
      bytes[(head + count) % RING] := byte;
      count := count + 1;
    }

    method Take() returns (flagged: bool, byte: Option<u8>)
      requires Valid()
      modifies this
      ensures Valid() && View() == Remaining(old(View()))
      ensures (if flagged then [Hole] else []) + (if byte.Some? then [Got(byte.value)] else []) == Delivered(old(View()))
    {
      hide Slot;
      ghost var h := head;
      SlotNext(h, 0);
      ghost var onward := (head + 1) % RING;
      forall i: nat ensures Slot(onward, i) == Slot(h, i + 1) {
        SlotNext(h, i);
      }
      flagged := lost;
      lost := false;
      byte := None;
      if count != 0 {
        byte := Some(bytes[head]);
        head := (head + 1) % RING;
        count := count - 1;
      }
    }
  }
}

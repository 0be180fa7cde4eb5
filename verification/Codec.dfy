// Little-endian 64-bit words: load64/store64 of lib/admin.c and the packing of
// bytes into message registers in include/tcs/admin_ipc.h.

module Codec {
  import opened Words

  type Bytes = seq<u8>

  // The number a byte string spells, least significant byte first.
  function Number(bs: Bytes): (n: nat) {
    if bs == [] then 0 else bs[0] + 256 * Number(bs[1..])
  }

  // The n low bytes of a number.
  function Digits(value: nat, n: nat): (bs: Bytes)
    ensures |bs| == n
  {
    if n == 0 then [] else [value % 256] + Digits(value / 256, n - 1)
  }

  function Limit(n: nat): (l: nat)
    ensures l > 0
  {
    if n == 0 then 1 else 256 * Limit(n - 1)
  }

  // value >> (8 * i)
  function Shifted(value: nat, i: nat): nat { if i == 0 then value else Shifted(value, i - 1) / 256 }

  lemma {:induction false} NumberOfDigits(value: nat, n: nat)
    requires value < Limit(n)
    ensures Number(Digits(value, n)) == value
  {
    if n > 0 {
      NumberOfDigits(value / 256, n - 1);
      assert Digits(value, n)[1..] == Digits(value / 256, n - 1);
    }
  }

  lemma {:induction false} DigitsOfNumber(bs: Bytes)
    ensures Digits(Number(bs), |bs|) == bs && Number(bs) < Limit(|bs|)
  {
    if bs != [] {
      DigitsOfNumber(bs[1..]);
      var rest := Number(bs[1..]);
      assert (bs[0] + 256 * rest) / 256 == rest && (bs[0] + 256 * rest) % 256 == bs[0];
      assert bs == [bs[0]] + bs[1..];
    }
  }

  lemma Scaled(b: u8, l: nat)
    ensures 256 * (b * l) == b * (256 * l)
  {
  }

  lemma {:induction false} NumberSnoc(bs: Bytes, b: u8)
    ensures Number(bs + [b]) == Number(bs) + b * Limit(|bs|)
  {
    if bs == [] {
      assert [] + [b] == [b];
      assert Number([b]) == b + 256 * Number([]) by { assert [b][1..] == []; }
    } else {
      NumberSnoc(bs[1..], b);
      assert (bs + [b])[1..] == bs[1..] + [b];
      Scaled(b, Limit(|bs| - 1));
    }
  }

  lemma {:induction false} ShiftedTail(value: nat, i: nat)
    requires 0 < i
    ensures Shifted(value, i) == Shifted(value / 256, i - 1)
  {
    if i > 1 { ShiftedTail(value, i - 1); }
  }

  lemma {:induction false} DigitAt(value: nat, n: nat, i: nat)
    requires i < n
    ensures Digits(value, n)[i] == Shifted(value, i) % 256
  {
    if i > 0 {
      DigitAt(value / 256, n - 1, i - 1);
      ShiftedTail(value, i);
    }
  }

  lemma WordLimit()
    ensures Limit(8) == U64_MAX + 1
  {
    assert Limit(2) == 0x1_0000;
    assert Limit(4) == 0x1_0000_0000;
    assert Limit(6) == 0x1_0000_0000_0000;
  }

  function Word(bs: Bytes): (w: u64)
    requires |bs| == 8
  {
    DigitsOfNumber(bs);
    WordLimit();
    Number(bs)
  }

  function WordBytes(w: u64): (bs: Bytes) { Digits(w, 8) }

  lemma WordRoundTrip(w: u64)
    ensures Word(WordBytes(w)) == w
  {
    WordLimit();
    NumberOfDigits(w, 8);
  }

  lemma BytesRoundTrip(bs: Bytes)
    requires |bs| == 8
    ensures WordBytes(Word(bs)) == bs
  {
    DigitsOfNumber(bs);
  }

  // ---------- packing ----------

  // The lowest byte comes first.
  lemma WordLittleEndian(bs: Bytes)
    requires |bs| == 8
    ensures var b: seq<int> := bs;
            Word(bs) == b[0] + 0x100 * b[1] + 0x1_0000 * b[2] + 0x100_0000 * b[3] + 0x1_0000_0000 * b[4]
                        + 0x100_0000_0000 * b[5] + 0x1_0000_0000_0000 * b[6] + 0x100_0000_0000_0000 * b[7]
  {
    assert Number(bs[8..]) == 0;
    assert Number(bs[7..]) == bs[7];
    assert Number(bs[6..]) == bs[6] as int + 256 * Number(bs[7..]);
    assert Number(bs[5..]) == bs[5] as int + 256 * Number(bs[6..]);
    assert Number(bs[4..]) == bs[4] as int + 256 * Number(bs[5..]);
    assert Number(bs[3..]) == bs[3] as int + 256 * Number(bs[4..]);
    assert Number(bs[2..]) == bs[2] as int + 256 * Number(bs[3..]);
    assert Number(bs[1..]) == bs[1] as int + 256 * Number(bs[2..]);
  }

  function Packed(bs: Bytes): (ws: seq<u64>)
    requires |bs| % 8 == 0
    ensures |ws| == |bs| / 8
    decreases |bs|
  {
    if bs == [] then [] else [Word(bs[..8])] + Packed(bs[8..])
  }

  function Unpacked(ws: seq<u64>): (bs: Bytes)
    ensures |bs| == 8 * |ws|
  {
    if ws == [] then [] else WordBytes(ws[0]) + Unpacked(ws[1..])
  }

  lemma {:induction false} UnpackPacked(bs: Bytes)
    requires |bs| % 8 == 0
    ensures Unpacked(Packed(bs)) == bs
    decreases |bs|
  {
    if bs != [] {
      BytesRoundTrip(bs[..8]);
      UnpackPacked(bs[8..]);
      assert bs == bs[..8] + bs[8..];
    }
  }

  lemma {:induction false} PackUnpacked(ws: seq<u64>)
    ensures Packed(Unpacked(ws)) == ws
  {
    if ws != [] {
      WordRoundTrip(ws[0]);
      PackUnpacked(ws[1..]);
      var bs := Unpacked(ws);
      assert bs[..8] == WordBytes(ws[0]) && bs[8..] == Unpacked(ws[1..]);
    }
  }

  lemma SliceOfSlice(p: Bytes, a: nat, b: nat, i: nat, j: nat)
    requires a <= b <= |p| && i <= j <= b - a
    ensures p[a..b][i..j] == p[a + i..a + j]
  {
    forall k | 0 <= k < j - i ensures p[a..b][i..j][k] == p[a + i..a + j][k] {
    }
  }

  lemma {:induction false} PackedAt(bs: Bytes, k: nat)
    requires |bs| % 8 == 0 && k < |bs| / 8
    ensures Packed(bs)[k] == Word(bs[8 * k..8 * k + 8])
    decreases k
  {
    if k > 0 {
      PackedAt(bs[8..], k - 1);
      assert bs[8..] == bs[8..|bs|];
      SliceOfSlice(bs, 8, |bs|, 8 * (k - 1), 8 * k);
    }
  }

  lemma {:induction false} UnpackedSnoc(ws: seq<u64>, w: u64)
    ensures Unpacked(ws + [w]) == Unpacked(ws) + WordBytes(w)
  {
    if ws == [] {
      assert [] + [w] == [w] && [w][1..] == [];
    } else {
      assert (ws + [w])[1..] == ws[1..] + [w];
      UnpackedSnoc(ws[1..], w);
    }
  }

  // ---------- the C code ----------

  // OR-ing a byte into a position that is still zero is adding it there.
  method Load64(p: Bytes, at: nat) returns (value: u64)
    requires at + 8 <= |p|
    ensures value == Word(p[at..at + 8])
  {
    var sum: nat := 0;
    var i := 0;
    while i < 8
      invariant 0 <= i <= 8 && sum == Number(p[at..at + i])
    {
      NumberSnoc(p[at..at + i], p[at + i]);
      assert p[at..at + i] + [p[at + i]] == p[at..at + i + 1];
      sum := sum + p[at + i] * Limit(i);
      i := i + 1;
    }
    DigitsOfNumber(p[at..at + 8]);
    WordLimit();
    value := sum;
  }

  method Store64(p: array<u8>, at: nat, value: u64)
    requires at + 8 <= p.Length
    modifies p
    ensures p[..] == old(p[..at]) + WordBytes(value) + old(p[at + 8..])
  {
    var i := 0;
    while i < 8
      invariant 0 <= i <= 8 && p[..at] == old(p[..at]) && p[at + 8..] == old(p[at + 8..])
      invariant forall k | 0 <= k < i :: p[at + k] == WordBytes(value)[k]
    {
      DigitAt(value, 8, i);
      p[at + i] := Shifted(value, i) % 256;
      i := i + 1;
    }
    assert p[at..at + 8] == WordBytes(value);
    assert p[..] == p[..at] + p[at..at + 8] + p[at + 8..];
  }

  // A tail shorter than a word is dropped.
  method WordsFromBytes(bytes: Bytes) returns (registers: seq<u64>)
    ensures registers == Packed(bytes[..|bytes| / 8 * 8])
  {
    hide Packed;
    registers := [];
    ghost var whole := bytes[..|bytes| / 8 * 8];
    var i := 0;
    while i < |bytes| / 8
      invariant 0 <= i <= |bytes| / 8 && registers == Packed(whole)[..i]
    {
      var word := Load64(bytes, 8 * i);
      PackedAt(whole, i);
      assert whole[8 * i..8 * i + 8] == bytes[8 * i..8 * i + 8];
      registers := registers + [word];
      i := i + 1;
    }
  }

  method BytesFromWords(bytes: array<u8>, registers: seq<u64>)
    requires bytes.Length == 8 * |registers|
    modifies bytes
    ensures bytes[..] == Unpacked(registers)
  {
    var i := 0;
    while i < |registers|
      invariant 0 <= i <= |registers| && bytes[..8 * i] == Unpacked(registers[..i])
    {
      Store64(bytes, 8 * i, registers[i]);
      UnpackedSnoc(registers[..i], registers[i]);
      assert registers[..i + 1] == registers[..i] + [registers[i]];
      i := i + 1;
    }
    assert registers[..|registers|] == registers;
  }
}

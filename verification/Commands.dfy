// Decimal numbers as the terminal prints them (servers/terminal.c) and as the
// operator tool reads them (tools/operator.c), and the command line grammar that
// lib/terminal.c parses.

module Commands {
  import opened Words
  import opened Codec
  import opened LineEditor

  const ZERO: u8 := 48

  predicate Digit(b: u8) { 48 <= b <= 57 }

  predicate AllDigits(ds: Bytes) { forall i | 0 <= i < |ds| :: Digit(ds[i]) }

  function Decimal(v: nat): (ds: Bytes)
    ensures ds != []
  {
    if v < 10 then [48 + v] else Decimal(v / 10) + [48 + v % 10]
  }

  function Value(ds: Bytes): (v: nat)
    requires AllDigits(ds)
    decreases |ds|
  {
    if ds == [] then 0 else Value(ds[..|ds| - 1]) * 10 + (ds[|ds| - 1] - 48)
  }

  // Printed numbers have no superfluous zeros.
  predicate Proper(ds: Bytes) { ds != [] && AllDigits(ds) && (ds[0] == ZERO ==> |ds| == 1) }

  lemma {:induction false} ValueOfDecimal(v: nat)
    ensures Proper(Decimal(v)) && Value(Decimal(v)) == v
    ensures v > 0 ==> Decimal(v)[0] != ZERO
  {
    if v >= 10 {
      ValueOfDecimal(v / 10);
      assert Decimal(v)[..|Decimal(v)| - 1] == Decimal(v / 10);
    }
  }

  lemma DecimalDigit(d: nat)
    requires d < 10
    ensures Decimal(d) == [48 + d]
  {
  }

  lemma DecimalSnoc(v: nat, d: nat)
    requires v > 0 && d < 10
    ensures Decimal(10 * v + d) == Decimal(v) + [48 + d]
  {
    assert (10 * v + d) / 10 == v && (10 * v + d) % 10 == d;
  }

  lemma {:induction false} DecimalOfValue(ds: Bytes)
    requires Proper(ds)
    ensures Decimal(Value(ds)) == ds
    ensures ds[0] != ZERO ==> Value(ds) > 0
    decreases |ds|
  {
    hide Decimal;
    var m := |ds| - 1;
    assert ds == ds[..m] + [ds[m]];
    if m == 0 {
      assert ds[..m] == [] && ds == [ds[0]];
      DecimalDigit(ds[0] - 48);
    } else {
      DecimalOfValue(ds[..m]);
      DecimalSnoc(Value(ds[..m]), ds[m] - 48);
    }
  }

  function Ten(n: nat): nat { if n == 0 then 1 else 10 * Ten(n - 1) }

  // 2^64 - 1 has 20 digits.
  lemma {:induction false} DecimalLength(v: nat, n: nat)
    requires n > 0 && v < Ten(n)
    ensures |Decimal(v)| <= n
  {
    if n > 1 && v >= 10 { DecimalLength(v / 10, n - 1); }
  }

  lemma WordDigits(v: u64)
    ensures |Decimal(v)| <= 20
  {
    assert Ten(4) == 10000;
    assert Ten(8) == 1_0000_0000;
    assert Ten(12) == 1_0000_0000_0000;
    assert Ten(16) == 1_0000_0000_0000_0000;
    DecimalLength(v, 20);
  }

  lemma {:induction false} ValueGrows(ds: Bytes, n: nat)
    requires AllDigits(ds) && n <= |ds|
    ensures Value(ds[..n]) <= Value(ds)
    decreases |ds|
  {
    if n == |ds| {
      assert ds[..n] == ds;
    } else {
      ValueGrows(ds[..|ds| - 1], n);
      assert ds[..|ds| - 1][..n] == ds[..n];
    }
  }

  // ---------- the grammar ----------

  const HELP: Bytes := [104, 101, 108, 112]
  const VERSION: Bytes := [118, 101, 114, 115, 105, 111, 110]
  const STATUS: Bytes := [115, 116, 97, 116, 117, 115]
  const READ_WORD: Bytes := [114, 101, 97, 100]

  datatype Typed = Empty | Help | Version | Status | Read(generation: u64) | Invalid

  predicate Space(b: u8) { b == SPACE || b == TAB }

  predicate Blank(bs: Bytes) { forall i | 0 <= i < |bs| :: Space(bs[i]) }

  predicate Plain(bs: Bytes) { |bs| < LINE_CAPACITY && forall i | 0 <= i < |bs| :: Printable(bs[i]) }

  // The text w between blanks.
  ghost predicate Padded(bs: Bytes, w: Bytes) {
    exists a: Bytes, z: Bytes :: Blank(a) && Blank(z) && bs == a + w + z
  }

  // "read", blanks, and the digits of a nonzero 64-bit number.
  ghost predicate ReadsWith(w: Bytes, sep: Bytes, ds: Bytes, g: u64) {
    sep != [] && Blank(sep) && AllDigits(ds) && w == READ_WORD + sep + ds && Value(ds) == g && g != 0
  }

  ghost predicate Reads(bs: Bytes, g: u64) {
    exists w: Bytes, sep: Bytes, ds: Bytes :: Padded(bs, w) && ReadsWith(w, sep, ds, g)
  }

  // The command a line spells.
  ghost predicate Spells(bs: Bytes, t: Typed)
    decreases t == Invalid
  {
    match t
    case Empty => Plain(bs) && Blank(bs)
    case Help => Plain(bs) && Padded(bs, HELP)
    case Version => Plain(bs) && Padded(bs, VERSION)
    case Status => Plain(bs) && Padded(bs, STATUS)
    case Read(g) => Plain(bs) && Reads(bs, g)
    case Invalid => forall u: Typed :: u != Invalid ==> !Spells(bs, u)
  }

  // ---------- the grammar is unambiguous ----------

  predicate Sharp(w: Bytes) { w != [] && !Space(w[0]) && !Space(w[|w| - 1]) }

  // bs[start..end] is bs without the blanks around it.
  predicate Trims(bs: Bytes, start: nat, end: nat) {
    start < end <= |bs| && Blank(bs[..start]) && Blank(bs[end..]) && !Space(bs[start]) && !Space(bs[end - 1])
  }

  lemma PaddedTrims(bs: Bytes, a: Bytes, w: Bytes, z: Bytes)
    requires bs == a + w + z && Blank(a) && Blank(z) && Sharp(w)
    ensures Trims(bs, |a|, |a| + |w|) && bs[|a|..|a| + |w|] == w
  {
    assert bs[..|a|] == a && bs[|a| + |w|..] == z;
  }

  lemma BlankSlice(bs: Bytes, lo: nat, hi: nat)
    requires lo <= hi <= |bs| && Blank(bs[lo..hi])
    ensures forall i | lo <= i < hi :: Space(bs[i])
  {
    forall i | lo <= i < hi ensures Space(bs[i]) { assert bs[lo..hi][i - lo] == bs[i]; }
  }

  lemma TrimsSpaces(bs: Bytes, s: nat, e: nat)
    requires Trims(bs, s, e)
    ensures forall i | 0 <= i < s || e <= i < |bs| :: Space(bs[i])
  {
    assert bs[..s] == bs[0..s] && bs[e..] == bs[e..|bs|];
    BlankSlice(bs, 0, s);
    BlankSlice(bs, e, |bs|);
  }

  lemma TrimsUnique(bs: Bytes, s: nat, e: nat, s2: nat, e2: nat)
    requires Trims(bs, s, e) && Trims(bs, s2, e2)
    ensures s == s2 && e == e2
  {
    TrimsSpaces(bs, s, e);
    TrimsSpaces(bs, s2, e2);
  }

  lemma PaddedInner(bs: Bytes, start: nat, end: nat, w: Bytes)
    requires Trims(bs, start, end) && Sharp(w) && Padded(bs, w)
    ensures bs[start..end] == w
  {
    hide Trims, Sharp, Blank;
    var a: Bytes, z: Bytes :| Blank(a) && Blank(z) && bs == a + w + z;
    PaddedTrims(bs, a, w, z);
    TrimsUnique(bs, start, end, |a|, |a| + |w|);
  }

  lemma InnerPadded(bs: Bytes, start: nat, end: nat)
    requires Trims(bs, start, end)
    ensures Padded(bs, bs[start..end])
  {
    hide Blank;
    assert bs == bs[..start] + bs[start..end] + bs[end..];
  }

  lemma PaddedExact(bs: Bytes, start: nat, end: nat, w: Bytes)
    requires Trims(bs, start, end) && Sharp(w)
    ensures Padded(bs, w) <==> bs[start..end] == w
  {
    hide Padded, Sharp, Blank;
    if Padded(bs, w) { PaddedInner(bs, start, end, w); }
    if bs[start..end] == w { InnerPadded(bs, start, end); }
  }

  lemma BlankPads(bs: Bytes, w: Bytes)
    requires Padded(bs, w) && Sharp(w)
    ensures !Blank(bs)
  {
    var a: Bytes, z: Bytes :| Blank(a) && Blank(z) && bs == a + w + z;
    assert bs[|a|] == w[0];
  }

  lemma ReadsSharp(w: Bytes, sep: Bytes, ds: Bytes, g: u64)
    requires ReadsWith(w, sep, ds, g)
    ensures Sharp(w) && ds != [] && w[0] == READ_WORD[0] && |w| > 4 && Space(w[4])
  {
    assert w[|w| - 1] == ds[|ds| - 1] && w[4] == sep[0];
  }

  // Where the digits of a read command start.
  predicate Splits(w: Bytes, k: nat) { 4 < k < |w| && w[..4] == READ_WORD && Blank(w[4..k]) && !Space(w[k]) }

  lemma ReadsExact(w: Bytes, k: nat, sep: Bytes, ds: Bytes, g: u64)
    requires Splits(w, k)
    ensures ReadsWith(w, sep, ds, g) <==> sep == w[4..k] && ds == w[k..] && AllDigits(ds) && Value(ds) == g && g != 0
  {
    if ReadsWith(w, sep, ds, g) {
      ReadsSharp(w, sep, ds, g);
      var j := 4 + |sep|;
      assert w[j] == ds[0] && w[4..j] == sep && w[j..] == ds;
      BlankSlice(w, 4, j);
      BlankSlice(w, 4, k);
    }
    if sep == w[4..k] && ds == w[k..] && AllDigits(ds) && Value(ds) == g && g != 0 {
      assert w == w[..4] + sep + ds;
    }
  }

  lemma ReadsUnique(w: Bytes, sep: Bytes, ds: Bytes, g: u64, sep2: Bytes, ds2: Bytes, g2: u64)
    requires ReadsWith(w, sep, ds, g) && ReadsWith(w, sep2, ds2, g2)
    ensures g == g2
  {
    ReadsSharp(w, sep, ds, g);
    var k := 4 + |sep|;
    assert w[4..k] == sep && w[..4] == READ_WORD && w[k] == ds[0];
    ReadsExact(w, k, sep, ds, g);
    ReadsExact(w, k, sep2, ds2, g2);
  }

  // What a line other than a blank or invalid one says between its blanks.
  ghost predicate Says(w: Bytes, t: Typed) {
    match t
    case Help => w == HELP
    case Version => w == VERSION
    case Status => w == STATUS
    case Read(g) => exists sep: Bytes, ds: Bytes :: ReadsWith(w, sep, ds, g)
    case _ => false
  }

  lemma SaysSharp(w: Bytes, t: Typed)
    requires Says(w, t)
    ensures Sharp(w) && t != Empty && t != Invalid && (t.Read? <==> w[0] == READ_WORD[0])
  {
    if t.Read? {
      var sep: Bytes, ds: Bytes :| ReadsWith(w, sep, ds, t.generation);
      ReadsSharp(w, sep, ds, t.generation);
    }
  }

  lemma SaysUnique(w: Bytes, t: Typed, u: Typed)
    requires Says(w, t) && Says(w, u)
    ensures t == u
  {
    hide ReadsWith;
    SaysSharp(w, t);
    SaysSharp(w, u);
    if t.Read? && u.Read? {
      var sep: Bytes, ds: Bytes :| ReadsWith(w, sep, ds, t.generation);
      var sep2: Bytes, ds2: Bytes :| ReadsWith(w, sep2, ds2, u.generation);
      ReadsUnique(w, sep, ds, t.generation, sep2, ds2, u.generation);
    }
  }

  lemma SpellsSays(bs: Bytes, t: Typed)
    requires t != Empty && t != Invalid
    ensures Spells(bs, t) <==> Plain(bs) && exists w: Bytes :: Padded(bs, w) && Says(w, t)
  {
  }

  lemma PaddedSame(bs: Bytes, w: Bytes, w2: Bytes)
    requires Padded(bs, w) && Padded(bs, w2) && Sharp(w) && Sharp(w2)
    ensures w == w2
  {
    var a: Bytes, z: Bytes :| Blank(a) && Blank(z) && bs == a + w + z;
    PaddedTrims(bs, a, w, z);
    PaddedExact(bs, |a|, |a| + |w|, w2);
  }

  // Every line spells exactly one command.
  lemma SpellsUnique(bs: Bytes, t: Typed, u: Typed)
    requires Spells(bs, t) && Spells(bs, u)
    ensures t == u
  {
    hide Says, Padded, Plain, Reads;
    if t != Invalid && u != Invalid {
      if t != Empty { SpellsSays(bs, t); }
      if u != Empty { SpellsSays(bs, u); }
      if t != Empty && u != Empty {
        var w: Bytes :| Padded(bs, w) && Says(w, t);
        var w2: Bytes :| Padded(bs, w2) && Says(w2, u);
        SaysSharp(w, t);
        SaysSharp(w2, u);
        PaddedSame(bs, w, w2);
        SaysUnique(w, t, u);
      } else if t != Empty {
        var w: Bytes :| Padded(bs, w) && Says(w, t);
        SaysSharp(w, t);
        BlankPads(bs, w);
      } else if u != Empty {
        var w: Bytes :| Padded(bs, w) && Says(w, u);
        SaysSharp(w, u);
        BlankPads(bs, w);
      }
    }
  }

  ghost function Meaning(bs: Bytes): (t: Typed)
    ensures Spells(bs, t)
  {
    if t: Typed :| t != Invalid && Spells(bs, t) then t else Invalid
  }

  // The generation the terminal prints is the generation `read` takes back.
  lemma PrintedReads(g: u64)
    requires g != 0
    ensures Spells(READ_WORD + [SPACE] + Decimal(g), Read(g))
  {
    ValueOfDecimal(g);
    WordDigits(g);
    var bs := READ_WORD + [SPACE] + Decimal(g);
    assert ReadsWith(bs, [SPACE], Decimal(g), g);
    var none: Bytes := [];
    assert Blank(none) && bs == none + bs + none;
    assert Padded(bs, bs);
  }

  // ---------- the C code ----------

  // The first `count` digits, last one first.
  method Backwards(digits: array<u8>, count: nat, ghost done: Bytes) returns (text: Bytes)
    requires |done| == count <= digits.Length && forall k | 0 <= k < count :: digits[k] == done[count - 1 - k]
    ensures text == done
  {
    text := [];
    var length := count;
    while length > 0
      invariant 0 <= length <= count && text == done[..count - length]
    {
      length := length - 1;
      text := text + [digits[length]];
    }
  }

  // decimal() of servers/terminal.c: digits least significant first, then out in
  // reverse.
  method PrintDecimal(value: u64) returns (text: Bytes)
    ensures text == Decimal(value)
  {
    var digits := new u8[21];
    var length: nat, v: nat := 1, value / 10;
    digits[0] := 48 + value % 10;
    WordDigits(value);
    ghost var done := [digits[0]];
    assert Decimal(value) == if v == 0 then done else Decimal(v) + done;
    while v != 0
      invariant 1 <= length <= 20 && |done| == length
      invariant forall k | 0 <= k < length :: digits[k] == done[length - 1 - k]
      invariant Decimal(value) == if v == 0 then done else Decimal(v) + done
      decreases v
    {
      assert |Decimal(v)| >= 1;
      done := [48 + v % 10] + done;
      assert v >= 10 ==> Decimal(v / 10) + [48 + v % 10] + done[1..] == Decimal(v / 10) + done;
      digits[length] := 48 + v % 10;
      length := length + 1;
      v := v / 10;
    }
    text := Backwards(digits, length, done);
  }

  lemma NextDigit(text: Bytes, i: nat)
    requires i < |text| && AllDigits(text[..i]) && Digit(text[i])
    ensures AllDigits(text[..i + 1]) && Value(text[..i + 1]) == Value(text[..i]) * 10 + (text[i] - 48)
  {
    assert text[..i + 1] == text[..i] + [text[i]];
    assert text[..i + 1][..i] == text[..i];
  }

  // number() of tools/operator.c.
  method Number(text: Bytes) returns (ok: bool, value: u64)
    ensures ok <==> exists v: u64 :: text == Decimal(v)
    ensures ok ==> text == Decimal(value)
  {
    value := 0;
    forall v: u64 | text == Decimal(v) ensures Proper(text) && |text| <= 20 && Value(text) == v {
      ValueOfDecimal(v);
      WordDigits(v);
    }
    if text == [] || (text[0] == ZERO && |text| > 1) { return false, value; }
    var i := 0;
    while i < |text|
      invariant 0 <= i <= |text| && i <= 20 && AllDigits(text[..i]) && value == Value(text[..i])
    {
      if i == 20 || text[i] < 48 || text[i] > 57 { return false, value; }
      var digit := text[i] - 48;
      NextDigit(text, i);
      if value > (U64_MAX - digit) / 10 {
        if AllDigits(text) { ValueGrows(text, i + 1); }
        return false, value;
      }
      value := value * 10 + digit;
      i := i + 1;
    }
    assert text[..i] == text;
    DecimalOfValue(text);
    return true, value;
  }

  method WordIs(bytes: Bytes, expected: Bytes) returns (same: bool)
    ensures same <==> bytes == expected
  {
    var i := 0;
    while i < |bytes| && i < |expected| && bytes[i] == expected[i]
      invariant 0 <= i <= |bytes| && i <= |expected| && bytes[..i] == expected[..i]
    {
      i := i + 1;
    }
    return i == |bytes| && i == |expected|;
  }

  lemma WordsSolid(w: Bytes, k: nat)
    requires k < |w| && Space(w[k])
    ensures w != HELP && w != VERSION && w != STATUS && w != READ_WORD
  {
  }

  lemma ReadsPrefix(w: Bytes, g: u64)
    requires Says(w, Read(g))
    ensures |w| > 4 && w[..4] == READ_WORD && Space(w[4]) && forall i | 0 <= i < 4 :: !Space(w[i])
  {
    var sep: Bytes, ds: Bytes :| ReadsWith(w, sep, ds, g);
    ReadsSharp(w, sep, ds, g);
    assert forall i | 0 <= i < 4 :: w[i] == READ_WORD[i];
  }

  ghost predicate Judged(w: Bytes, t: Typed) {
    if t == Invalid then forall u :: !Says(w, u) else Says(w, t)
  }

  lemma JudgedSpells(bs: Bytes, start: nat, end: nat, t: Typed)
    requires Plain(bs) && Trims(bs, start, end) && Judged(bs[start..end], t)
    ensures Spells(bs, t)
  {
    hide Says, Padded, Plain, Reads;
    var w := bs[start..end];
    forall u | u != Invalid ensures Spells(bs, u) <==> Says(w, u) {
      if u == Empty {
        if Says(w, u) { SaysSharp(w, u); }
        assert !Space(bs[start]);
      } else {
        SpellsSays(bs, u);
        if Says(w, u) {
          SaysSharp(w, u);
          PaddedExact(bs, start, end, w);
        }
        if Spells(bs, u) {
          var w2: Bytes :| Padded(bs, w2) && Says(w2, u);
          SaysSharp(w2, u);
          PaddedExact(bs, start, end, w2);
        }
      }
    }
  }

  lemma SplitsOnly(w: Bytes, k: nat)
    requires Splits(w, k)
    ensures k < |w|
    ensures forall t :: Says(w, t) <==> AllDigits(w[k..]) && t.Read? && t.generation != 0 && Value(w[k..]) == t.generation
  {
    forall t ensures Says(w, t) <==> AllDigits(w[k..]) && t.Read? && t.generation != 0 && Value(w[k..]) == t.generation {
      assert w[4] == w[4..k][0];
      WordsSolid(w, 4);
      if t.Read? {
        var g := t.generation;
        ReadsExact(w, k, w[4..k], w[k..], g);
        if Says(w, t) {
          var sep: Bytes, ds: Bytes :| ReadsWith(w, sep, ds, g);
          ReadsExact(w, k, sep, ds, g);
        }
      }
    }
  }

  // The digits after `read`.
  method ParseGeneration(w: Bytes, k: nat) returns (t: Typed)
    requires Splits(w, k)
    ensures Judged(w, t)
  {
    hide Splits, ReadsWith;
    SplitsOnly(w, k);
    var generation: u64 := 0;
    var i := k;
    while i < |w|
      invariant k <= i <= |w| && AllDigits(w[k..i]) && generation == Value(w[k..i])
    {
      assert w[k..][..i - k] == w[k..i] && w[k..][..i - k + 1] == w[k..i + 1];
      if w[i] < 48 || w[i] > 57 {
        assert w[k..][i - k] == w[i];
        return Invalid;
      }
      var digit := w[i] - 48;
      NextDigit(w[k..], i - k);
      if generation > (U64_MAX - digit) / 10 {
        if AllDigits(w[k..]) { ValueGrows(w[k..], i - k + 1); }
        return Invalid;
      }
      generation := generation * 10 + digit;
      i := i + 1;
    }
    assert w[k..i] == w[k..];
    return if generation == 0 then Invalid else Read(generation);
  }

  method ParseWords(w: Bytes) returns (t: Typed)
    requires Sharp(w)
    ensures Judged(w, t)
  {
    hide ReadsWith;
    var split := 0;
    while split < |w| && !Space(w[split])
      invariant 0 <= split <= |w| && forall i | 0 <= i < split :: !Space(w[i])
    {
      split := split + 1;
    }
    forall g: u64 | Says(w, Read(g)) ensures split == 4 < |w| && w[..split] == READ_WORD {
      ReadsPrefix(w, g);
    }
    if split == |w| {
      var help := WordIs(w, HELP);
      if help { return Help; }
      var version := WordIs(w, VERSION);
      if version { return Version; }
      var status := WordIs(w, STATUS);
      if status { return Status; }
      return Invalid;
    }
    WordsSolid(w, split);
    var read := WordIs(w[..split], READ_WORD);
    if !read { return Invalid; }
    var k := split;
    while k < |w| && Space(w[k])
      invariant split <= k <= |w| && Blank(w[split..k])
    {
      assert w[split..k + 1] == w[split..k] + [w[k]];
      k := k + 1;
    }
    BlankSlice(w, split, k);
    assert |READ_WORD| == split == 4;
    t := ParseGeneration(w, k);
  }

  // Where the text between the blanks starts and ends.
  method Trim(bytes: Bytes) returns (start: nat, end: nat)
    ensures start <= end <= |bytes| && Blank(bytes[..start]) && Blank(bytes[end..])
    ensures start < end ==> Trims(bytes, start, end)
  {
    start, end := 0, |bytes|;
    while start < end && Space(bytes[start])
      invariant 0 <= start <= end && forall k | 0 <= k < start :: Space(bytes[k])
    {
      start := start + 1;
    }
    while end > start && Space(bytes[end - 1])
      invariant start <= end <= |bytes| && forall k | end <= k < |bytes| :: Space(bytes[k])
      invariant start < |bytes| ==> start == end || !Space(bytes[start])
    {
      end := end - 1;
    }
    forall k | 0 <= k < start ensures Space(bytes[..start][k]) { assert bytes[..start][k] == bytes[k]; }
    forall k | 0 <= k < |bytes| - end ensures Space(bytes[end..][k]) { assert bytes[end..][k] == bytes[end + k]; }
  }

  method Parse(bytes: Bytes) returns (t: Typed)
    ensures Spells(bytes, t)
  {
    hide Reads, Padded;
    if |bytes| >= LINE_CAPACITY { return Invalid; }
    var i := 0;
    while i < |bytes|
      invariant 0 <= i <= |bytes| && forall k | 0 <= k < i :: Printable(bytes[k])
    {
      if (bytes[i] < 32 && bytes[i] != TAB) || bytes[i] > 126 { return Invalid; }
      i := i + 1;
    }
    var start, end := Trim(bytes);
    if start == end {
      assert bytes == bytes[..start] + bytes[end..];
      return Empty;
    }
    t := ParseWords(bytes[start..end]);
    JudgedSpells(bytes, start, end, t);
  }

  lemma ReadLine(ds: Bytes)
    requires AllDigits(ds) && ds != [] && |READ_WORD| + 1 + |ds| < LINE_CAPACITY
    ensures var w := READ_WORD + [SPACE] + ds;
            Plain(w) && Trims(w, 0, |w|) && Splits(w, 5) && w[5..] == ds && w[0..|w|] == w
  {
    var w := READ_WORD + [SPACE] + ds;
    assert w[..4] == READ_WORD && w[4..5] == [SPACE] && w[5..] == ds;
    assert w[5] == ds[0] && w[|w| - 1] == ds[|ds| - 1];
    assert w[..0] == [] && w[|w|..] == [] && w[0..|w|] == w;
  }

  // `read` takes a digit string exactly when its value is a nonzero 64-bit number.
  lemma ReadAccepts(ds: Bytes)
    requires AllDigits(ds) && ds != [] && |READ_WORD| + 1 + |ds| < LINE_CAPACITY
    ensures Meaning(READ_WORD + [SPACE] + ds) == if 1 <= Value(ds) <= U64_MAX then Read(Value(ds)) else Invalid
  {
    hide Value, Meaning, Says, Plain, Splits, Spells;
    var w := READ_WORD + [SPACE] + ds;
    ReadLine(ds);
    SplitsOnly(w, 5);
    var t := if 1 <= Value(ds) <= U64_MAX then Read(Value(ds)) else Invalid;
    JudgedSpells(w, 0, |w|, t);
    SpellsUnique(w, t, Meaning(w));
  }
}

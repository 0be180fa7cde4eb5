// lib/admin.c: the canonical signed packet and the administrator that admits
// packets one at a time, in sequence.

module Admin {
  import opened Words
  import opened Codec
  import opened Policy
  import opened AdminReceipt

  const MESSAGE_BYTES := 128
  const PACKET_BYTES := 192

  // "TCS-ADMIN-", version 1, five zero bytes.
  const DOMAIN: Bytes := [84, 67, 83, 45, 65, 68, 77, 73, 78, 45, 1, 0, 0, 0, 0, 0]

  const ACCEPTED: u64 := 0
  const NOT_READY: u64 := 1
  const BAD_PACKET: u64 := 2
  const BAD_CONTEXT: u64 := 3
  const BAD_SIGNATURE: u64 := 4
  const REPLAYED: u64 := 5
  const BUSY: u64 := 6
  const USED_UP: u64 := 7
  const BAD_COMPLETION: u64 := 8

  const NOTHING := Command(0, 0, Request(0, 0, 0, 0, 0))

  // Ed25519 verification of a signature over a message under a key (section
  // 5.1.7 of RFC 8032), left uninterpreted.
  type Verifier = (Bytes, Bytes, Bytes) -> bool

  // ---------- the packet ----------

  function FieldWords(c: Command): seq<u64> {
    [c.sequence, c.request.op, c.request.subject, c.request.obj, c.request.rights, c.expected]
  }

  function Canonical(realm: Bytes, boot: Bytes, c: Command): Bytes { DOMAIN + realm + boot + Unpacked(FieldWords(c)) }

  // The command a packet's bytes 80 to 127 spell, taken at face value.
  function Fields(p: Bytes): Command
    requires |p| >= MESSAGE_BYTES
  {
    Command(Word(p[80..88]), Word(p[120..128]),
            Request(Word(p[88..96]), Word(p[96..104]), Word(p[104..112]), Word(p[112..120]), 0))
  }

  lemma FieldsPacked(p: Bytes)
    requires |p| >= MESSAGE_BYTES
    ensures Packed(p[80..128]) == FieldWords(Fields(p))
  {
    forall k | 0 <= k < 6
      ensures Packed(p[80..128])[k] == Word(p[80 + 8 * k..88 + 8 * k])
    {
      PackedAt(p[80..128], k);
      SliceOfSlice(p, 80, 128, 8 * k, 8 * k + 8);
    }
  }

  lemma FieldWordsDetermine(c: Command, d: Command)
    requires FieldWords(c) == FieldWords(d) && c.request.generation == d.request.generation
    ensures c == d
  {
    assert FieldWords(c)[0] == d.sequence && FieldWords(c)[1] == d.request.op && FieldWords(c)[2] == d.request.subject
           && FieldWords(c)[3] == d.request.obj && FieldWords(c)[4] == d.request.rights && FieldWords(c)[5] == d.expected;
  }

  // Reading the canonical encoding of a command gives the command back.
  lemma CanonicalDecodes(realm: Bytes, boot: Bytes, c: Command, signature: Bytes)
    requires |realm| == 32 && |boot| == 32 && c.request.generation == 0
    ensures var p := Canonical(realm, boot, c) + signature;
            && |Canonical(realm, boot, c)| == MESSAGE_BYTES
            && p[..16] == DOMAIN && p[16..48] == realm && p[48..80] == boot && Fields(p) == c
  {
    hide Unpacked, Packed;
    var p := Canonical(realm, boot, c) + signature;
    assert p[80..128] == Unpacked(FieldWords(c));
    PackUnpacked(FieldWords(c));
    FieldsPacked(p);
    FieldWordsDetermine(c, Fields(p));
  }

  // And a message with the right prefix is the canonical encoding of what it says.
  lemma DecodedIsCanonical(p: Bytes)
    requires |p| >= MESSAGE_BYTES && p[..16] == DOMAIN
    ensures p[..128] == Canonical(p[16..48], p[48..80], Fields(p))
  {
    FieldsPacked(p);
    UnpackPacked(p[80..128]);
    assert p[..128] == p[..16] + p[16..48] + p[48..80] + p[80..128];
  }

  // ---------- the administrator ----------

  datatype Adm = Adm(key: Bytes, realm: Bytes, boot: Bytes, next: u64, pending: u64, initialized: bool, exhausted: bool)

  predicate Nonzero(bs: Bytes) { exists i | 0 <= i < |bs| :: bs[i] != 0 }

  predicate Ready(a: Adm) { a.initialized && |a.key| == 32 && |a.realm| == 32 && |a.boot| == 32 }

  function AdmitStatus(a: Adm, packet: Bytes, verify: Verifier): u64 {
    if !a.initialized then NOT_READY
    else if a.pending != 0 then BUSY
    else if a.exhausted then USED_UP
    else if |packet| != PACKET_BYTES || packet[..16] != DOMAIN || !ExecutionValid(Fields(packet)) then BAD_PACKET
    else if packet[16..48] != a.realm || packet[48..80] != a.boot then BAD_CONTEXT
    else if Fields(packet).sequence != a.next then REPLAYED
    else if !verify(a.key, packet[..128], packet[128..]) then BAD_SIGNATURE
    else ACCEPTED
  }

  // Admission consumes the sequence; the last one is spent by a flag.
  function Admitted(a: Adm, packet: Bytes, verify: Verifier): (Adm, u64, Command) {
    var status := AdmitStatus(a, packet, verify);
    if status != ACCEPTED then (a, status, NOTHING)
    else
      var next := if a.next == U64_MAX then a.(pending := a.next, exhausted := true)
                  else a.(pending := a.next, next := a.next + 1);
      (next, ACCEPTED, Fields(packet))
  }

  function Completed(a: Adm, sequence: u64): (Adm, u64) {
    if !a.initialized then (a, NOT_READY)
    else if sequence == 0 || a.pending != sequence then (a, BAD_COMPLETION)
    else (a.(pending := 0), ACCEPTED)
  }

  // An accepted packet signs exactly the admitted command, in this realm and
  // boot, with the next sequence.
  lemma AcceptedIsCanonical(a: Adm, packet: Bytes, verify: Verifier)
    requires Ready(a) && AdmitStatus(a, packet, verify) == ACCEPTED
    ensures var c := Admitted(a, packet, verify).2;
            && packet[..128] == Canonical(a.realm, a.boot, c)
            && verify(a.key, Canonical(a.realm, a.boot, c), packet[128..])
            && ExecutionValid(c) && c.sequence == a.next
  {
    DecodedIsCanonical(packet);
  }

  // Conversely a valid, signed command with the next sequence is admitted as is.
  lemma CanonicalIsAccepted(a: Adm, c: Command, signature: Bytes, verify: Verifier)
    requires Ready(a) && a.pending == 0 && !a.exhausted
    requires ExecutionValid(c) && c.sequence == a.next && |signature| == 64
    requires verify(a.key, Canonical(a.realm, a.boot, c), signature)
    ensures var (next, status, admitted) := Admitted(a, Canonical(a.realm, a.boot, c) + signature, verify);
            status == ACCEPTED && admitted == c && next.pending == c.sequence
  {
    CanonicalDecodes(a.realm, a.boot, c, signature);
    var p := Canonical(a.realm, a.boot, c) + signature;
    assert p[..128] == Canonical(a.realm, a.boot, c) && p[128..] == signature;
  }

  // ---------- the C code ----------

  method Equal(a: Bytes, b: Bytes, length: nat) returns (same: bool)
    requires length <= |a| && length <= |b|
    ensures same <==> a[..length] == b[..length]
  {
    var i := 0;
    while i < length
      invariant 0 <= i <= length && a[..i] == b[..i]
    {
      if a[i] != b[i] {
        assert a[..length][i] != b[..length][i];
        return false;
      }
      assert a[..i + 1] == a[..i] + [a[i]] && b[..i + 1] == b[..i] + [b[i]];
      i := i + 1;
    }
    return true;
  }

  method AnyNonzero(bytes: Bytes) returns (any: bool)
    ensures any <==> Nonzero(bytes)
  {
    any := false;
    var i := 0;
    while i < |bytes|
      invariant 0 <= i <= |bytes|
      invariant any <==> exists k | 0 <= k < i :: bytes[k] != 0
    {
      any := any || bytes[i] != 0;
      i := i + 1;
    }
  }

  // copy() to the position after the bytes already in place.
  method Copy(to: array<u8>, at: nat, from: Bytes, ghost front: Bytes)
    requires at + |from| <= to.Length && to[..at] == front
    modifies to
    ensures to[..at + |from|] == front + from
  {
    var i := 0;
    while i < |from|
      invariant 0 <= i <= |from| && to[..at + i] == front + from[..i]
    {
      to[at + i] := from[i];
      assert to[..at + i + 1] == to[..at + i] + [from[i]];
      assert from[..i + 1] == from[..i] + [from[i]];
      i := i + 1;
    }
    assert from[..|from|] == from;
  }

  // store64 of field k of the message, after the prefix and fields 0 to k - 1.
  method StoreField(message: array<u8>, at: nat, value: u64, ghost front: Bytes, ghost ws: seq<u64>, ghost k: nat)
    requires message.Length == MESSAGE_BYTES && |front| == 80 && k < |ws| == 6 && at == 80 + 8 * k && ws[k] == value
    requires message[..at] == front + Unpacked(ws[..k])
    modifies message
    ensures message[..at + 8] == front + Unpacked(ws[..k + 1])
  {
    Store64(message, at, value);
    UnpackedSnoc(ws[..k], value);
    assert ws[..k + 1] == ws[..k] + [value];
    assert message[..at + 8] == message[..at] + WordBytes(value);
  }

  method WriteFields(message: array<u8>, realm: Bytes, boot: Bytes, c: Command)
    requires message.Length == MESSAGE_BYTES && |realm| == 32 && |boot| == 32
    modifies message
    ensures message[..] == Canonical(realm, boot, c)
  {
    hide Unpacked;
    Copy(message, 0, DOMAIN, []);
    Copy(message, 16, realm, [] + DOMAIN);
    Copy(message, 48, boot, [] + DOMAIN + realm);
    ghost var front, ws := DOMAIN + realm + boot, FieldWords(c);
    assert message[..80] == front + Unpacked(ws[..0]);
    StoreField(message, 80, c.sequence, front, ws, 0);
    StoreField(message, 88, c.request.op, front, ws, 1);
    StoreField(message, 96, c.request.subject, front, ws, 2);
    StoreField(message, 104, c.request.obj, front, ws, 3);
    StoreField(message, 112, c.request.rights, front, ws, 4);
    StoreField(message, 120, c.expected, front, ws, 5);
    assert message[..128] == message[..] && ws[..6] == ws;
  }

  method Encode(message: array<u8>, realm: Bytes, boot: Bytes, c: Command) returns (ok: bool)
    requires message.Length == MESSAGE_BYTES && |realm| == 32 && |boot| == 32
    modifies message
    ensures ok <==> Nonzero(realm) && Nonzero(boot) && ExecutionValid(c)
    ensures message[..] == if ok then Canonical(realm, boot, c) else seq(MESSAGE_BYTES, _ => 0)
  {
    hide Canonical, Unpacked, ExecutionValid, Nonzero;
    var i := 0;
    while i < MESSAGE_BYTES
      invariant 0 <= i <= MESSAGE_BYTES
      invariant forall k | 0 <= k < i :: message[k] == 0
    {
      message[i] := 0;
      i := i + 1;
    }
    var realmOk := AnyNonzero(realm);
    var bootOk := AnyNonzero(boot);
    if !realmOk || !bootOk || !ExecutionValid(c) { return false; }
    WriteFields(message, realm, boot, c);
    return true;
  }

  class Administrator {
    const verify: Verifier
    var key: Bytes
    var realm: Bytes
    var boot: Bytes
    var next: u64
    var pending: u64
    var initialized: bool
    var exhausted: bool

    constructor (verify: Verifier)
      ensures this.verify == verify && View() == Adm([], [], [], 0, 0, false, false)
    {
      this.verify := verify;
      key, realm, boot, next, pending, initialized, exhausted := [], [], [], 0, 0, false, false;
    }

    function View(): Adm
      reads this
    {
      Adm(key, realm, boot, next, pending, initialized, exhausted)
    }

    method Init(publicKey: Bytes, theRealm: Bytes, theBoot: Bytes) returns (ok: bool)
      requires |publicKey| == 32 && |theRealm| == 32 && |theBoot| == 32
      modifies this
      ensures ok <==> !old(initialized) && Nonzero(publicKey) && Nonzero(theRealm) && Nonzero(theBoot)
      ensures View() == if ok then Adm(publicKey, theRealm, theBoot, 1, 0, true, false) else old(View())
    {
      var keyOk := AnyNonzero(publicKey);
      var realmOk := AnyNonzero(theRealm);
      var bootOk := AnyNonzero(theBoot);
      if initialized || !keyOk || !realmOk || !bootOk { return false; }
      pending, exhausted := 0, false;
      key, realm, boot := publicKey, theRealm, theBoot;
      next, initialized := 1, true;
      return true;
    }

    method Admit(packet: Bytes) returns (status: u64, command: Command)
      requires initialized ==> Ready(View())
      modifies this
      ensures (View(), status, command) == Admitted(old(View()), packet, verify)
    {
      hide ExecutionValid;
      command := NOTHING;
      if !initialized { return NOT_READY, command; }
      if pending != 0 { return BUSY, command; }
      if exhausted { return USED_UP, command; }
      if |packet| != PACKET_BYTES { return BAD_PACKET, command; }
      var prefixOk := Equal(packet, DOMAIN, 16);
      assert DOMAIN[..16] == DOMAIN;
      if !prefixOk { return BAD_PACKET, command; }
      var sequence := Load64(packet, 80);
      var expected := Load64(packet, 120);
      var op := Load64(packet, 88);
      var subject := Load64(packet, 96);
      var obj := Load64(packet, 104);
      var rights := Load64(packet, 112);
      var c := Command(sequence, expected, Request(op, subject, obj, rights, 0));
      if !ExecutionValid(c) { return BAD_PACKET, command; }
      var realmOk := Equal(packet[16..], realm, 32);
      var bootOk := Equal(packet[48..], boot, 32);
      assert packet[16..][..32] == packet[16..48] && packet[48..][..32] == packet[48..80];
      assert realm[..32] == realm && boot[..32] == boot;
      if !realmOk || !bootOk { return BAD_CONTEXT, command; }
      if c.sequence != next { return REPLAYED, command; }
      if !verify(key, packet[..128], packet[128..]) { return BAD_SIGNATURE, command; }
      pending := c.sequence;
      if c.sequence == U64_MAX { exhausted := true; } else { next := next + 1; }
      return ACCEPTED, c;
    }

    method Complete(sequence: u64) returns (status: u64)
      modifies this
      ensures (View(), status) == Completed(old(View()), sequence)
    {
      if !initialized { return NOT_READY; }
      if sequence == 0 || pending != sequence { return BAD_COMPLETION; }
      pending := 0;
      return ACCEPTED;
    }
  }
}

// What the administrator answers to each kind of packet, what the policy owner does
// with each command, and what a signed grant is worth to the client.

module AdminOutcomes {
  import opened Words
  import opened Messages
  import opened Codec
  import opened Policy
  import opened AuditServer
  import opened PolicyServer
  import opened PolicyOutcomes
  import opened AdminReceipt
  import opened AdminServer
  import A = Admin

  // ---------- admission ----------

  // The packet of a valid command, under some signature.
  function PacketFor(realm: Bytes, boot: Bytes, c: Command, signature: Bytes): Bytes {
    A.Canonical(realm, boot, c) + signature
  }

  // A well-formed packet is judged in this order: the administrator's own state,
  // the realm and boot, the sequence and last the signature.
  lemma AdmissionOutcome(a: A.Adm, realm: Bytes, boot: Bytes, c: Command, signature: Bytes, verify: A.Verifier)
    requires A.Ready(a) && |realm| == |boot| == 32 && |signature| == 64 && ExecutionValid(c)
    ensures A.AdmitStatus(a, PacketFor(realm, boot, c, signature), verify) ==
              if a.pending != 0 then A.BUSY
              else if a.exhausted then A.USED_UP
              else if realm != a.realm || boot != a.boot then A.BAD_CONTEXT
              else if c.sequence != a.next then A.REPLAYED
              else if !verify(a.key, A.Canonical(realm, boot, c), signature) then A.BAD_SIGNATURE
              else A.ACCEPTED
  {
    A.CanonicalDecodes(realm, boot, c, signature);
    var p := PacketFor(realm, boot, c, signature);
    assert p[..128] == A.Canonical(realm, boot, c) && p[128..] == signature;
  }

  ghost predicate PacketOfCommand(packet: Bytes, realm: Bytes, boot: Bytes, c: Command, signature: Bytes) {
    && |realm| == |boot| == 32 && |signature| == 64 && ExecutionValid(c)
    && packet == PacketFor(realm, boot, c, signature)
  }

  // Every other packet is malformed.
  lemma MalformedOutcome(a: A.Adm, packet: Bytes, verify: A.Verifier)
    requires A.Ready(a) && a.pending == 0 && !a.exhausted
    ensures A.AdmitStatus(a, packet, verify) == A.BAD_PACKET <==>
              !exists realm, boot, c, signature :: PacketOfCommand(packet, realm, boot, c, signature)
  {
    if A.AdmitStatus(a, packet, verify) != A.BAD_PACKET {
      A.DecodedIsCanonical(packet);
      assert packet == packet[..128] + packet[128..];
      assert PacketOfCommand(packet, packet[16..48], packet[48..80], A.Fields(packet), packet[128..]);
    }
    if realm: Bytes, boot: Bytes, c: Command, signature: Bytes :| PacketOfCommand(packet, realm, boot, c, signature) {
      AdmissionOutcome(a, realm, boot, c, signature, verify);
    }
  }

  // Refusals keep the administrator and hand out no command; an admission takes
  // the sequence, and the last one uses the administrator up.
  lemma AdmittedOutcome(a: A.Adm, packet: Bytes, verify: A.Verifier)
    requires A.Ready(a)
    ensures var (next, status, c) := A.Admitted(a, packet, verify);
            && (status != A.ACCEPTED ==> next == a && c == A.NOTHING)
            && (status == A.ACCEPTED ==>
                  && c == A.Fields(packet) && c.sequence == a.next == next.pending
                  && next == a.(pending := a.next, next := next.next, exhausted := a.next == U64_MAX)
                  && next.next == if a.next < U64_MAX then a.next + 1 else U64_MAX)
  {
  }

  // ---------- execution ----------

  // A command takes effect exactly when it names the subject's generation, the
  // plain decision is a success and it is recorded or takes authority away.
  lemma ExecutedOutcome(p: Policy, c: Command, audit: bool)
    requires ExecutionValid(c)
    ensures var r := c.request;
            var current := p[r.subject].generation == c.expected;
            var (decided, d) := Decide(p, Admin, r);
            var effective := current && d.status == OK && (audit || r.op == REVOKE || r.op == QUARANTINE);
            var (live, receipt) := Executed(p, c, audit);
            && live == (if effective then decided else p)
            && receipt.command == c && receipt.decision == (if current then d.status else STALE)
            && receipt.auditOk == (if audit then 1 else 0) && receipt.applied == (if effective then 1 else 0)
            && var s := live[r.subject];
               receipt.post == Snapshot(OK, s.state, s.generation, s.obj, s.rights)
  {
    hide Decide;
  }

  // The owner refuses a command out of sequence and an impossible one, and changes
  // nothing.
  lemma ExecutionRefused(h: Host, c: Command, audit: bool)
    requires h.ready && c.request.generation == 0 && (!ExecutionValid(c) || h.exhausted || c.sequence != h.sequence)
    ensures Executes(h, Message(ADMIN_EXECUTE, ExecutionWords(c)), audit) ==
              (h, Message(TCS_REPLY, [if ExecutionValid(c) then STALE else BAD_MESSAGE, 0]))
  {
    assert ExecutionFrom(ExecutionWords(c)) == c;
  }

  // Storage's requests are decided as they are and answered when recorded.
  lemma OrdinaryOutcome(h: Host, m: Message, audit: bool)
    requires h.ready && |m.words| == 4 && LABEL + GRANT <= m.tag <= LABEL + RESTORE
    ensures var r := Request(m.tag - LABEL, m.words[0], m.words[1], m.words[2], m.words[3]);
            Ordinarily(h, m, audit) ==
              (h, if audit then TcsReply(Decide(h.live, Storage, r).1) else Message(TCS_REPLY, [AUDIT_FULL, 0]))
  {
    UseChangesNothing(h, m, audit);
  }

  // ---------- a signed grant ----------

  // The message registers that carry such a packet.
  lemma PacketTravels(realm: Bytes, boot: Bytes, c: Command, signature: Bytes)
    requires |realm| == |boot| == 32 && |signature| == 64 && ExecutionValid(c)
    ensures var packet := PacketFor(realm, boot, c, signature);
            && |packet| == 192 && |Packed(packet)| == PACKET_WORDS && Unpacked(Packed(packet)) == packet
            && A.Fields(packet) == c
  {
    hide Unpacked, Packed;
    var packet := PacketFor(realm, boot, c, signature);
    A.CanonicalDecodes(realm, boot, c, signature);
    UnpackPacked(packet);
  }

  // The administrator grants subject i the generation after this one, and it can
  // be given.
  predicate Grantable(p: Policy, c: Command) {
    && ExecutionValid(c) && c.request.op == GRANT && p[c.request.subject].generation == c.expected < U64_MAX
    && p[c.request.subject].state != QUARANTINED
  }

  lemma GrantExecuted(p: Policy, c: Command)
    requires Grantable(p, c)
    ensures var (live, receipt) := Executed(p, c, true);
            && receipt == Receipt(c, OK, 1, 1, Snapshot(OK, ACTIVE, c.expected + 1, OBJECT, READ))
            && Decide(live, Storage, CheckOf(c.request.subject, c.expected + 1)).1 == Result(OK, c.expected + 1)
  {
    ExecutedOutcome(p, c, true);
    GrantOutcome(p, c.request.subject);
  }

  // A correctly signed, recorded grant for the generation its subject has is
  // answered with a receipt for the next one, and storage's check of that subject
  // then succeeds with the generation in the receipt.
  lemma SignedGrantHonoured(o: Office, c: Command, signature: Bytes, m: Message, verify: A.Verifier)
    requires Lockstep(o, verify) && o.a.pending == 0 && !o.a.exhausted && c.sequence == o.a.next
    requires Grantable(o.h.live, c) && |signature| == 64 && verify(o.a.key, A.Canonical(o.a.realm, o.a.boot, c), signature)
    requires Is(m, ADMIN_SUBMIT, PACKET_WORDS) && Unpacked(m.words) == PacketFor(o.a.realm, o.a.boot, c, signature)
    ensures var (a, h, reply) := Requested(o.a, o.h, 0, m, true, None, verify);
            var granted := c.expected + 1;
            && a.pending == 0
            && ReceiptDecode(reply) == Some(Receipt(c, OK, 1, 1, Snapshot(OK, ACTIVE, granted, OBJECT, READ)))
            && Ordinarily(h, CheckMessage(c.request.subject, granted), true).1 == TcsReply(Result(OK, granted))
  {
    hide Lockstep, Requested, Executed, ReceiptDecode, Unpacked, Packed, A.AdmitStatus, A.Canonical, Decide, Ordinarily;
    assert A.Ready(o.a) by { LockstepReady(o, verify); }
    PacketTravels(o.a.realm, o.a.boot, c, signature);
    AdmissionOutcome(o.a, o.a.realm, o.a.boot, c, signature, verify);
    HonestCompletes(o, m, true, verify);
    GrantExecuted(o.h.live, c);
    ForwardedIsExecuted(o, m, true, None, verify);
    OrdinaryOutcome(Requested(o.a, o.h, 0, m, true, None, verify).1, CheckMessage(c.request.subject, c.expected + 1), true);
  }

  // ---------- the packet, byte by byte ----------

  // The fixed layout: the domain with its version, the realm, the boot and six
  // words, the expected generation last.
  lemma PacketLayout(realm: Bytes, boot: Bytes, c: Command)
    requires |realm| == |boot| == 32
    ensures var p := A.Canonical(realm, boot, c);
            && |p| == 128 && p[..10] == [84, 67, 83, 45, 65, 68, 77, 73, 78, 45] && p[10..16] == [1, 0, 0, 0, 0, 0]
            && p[16..48] == realm && p[48..80] == boot
            && Word(p[80..88]) == c.sequence && Word(p[88..96]) == c.request.op && Word(p[96..104]) == c.request.subject
            && Word(p[104..112]) == c.request.obj && Word(p[112..120]) == c.request.rights && Word(p[120..128]) == c.expected
  {
    hide Unpacked, Packed, Word;
    var p, plain := A.Canonical(realm, boot, c), c.(request := c.request.(generation := 0));
    assert A.FieldWords(plain) == A.FieldWords(c);
    A.CanonicalDecodes(realm, boot, plain, []);
    assert p + [] == p;
    assert p[..10] == A.DOMAIN[..10] && p[10..16] == A.DOMAIN[10..];
  }

  // Before it is initialised the administrator does nothing, and a command is
  // completed exactly by its own sequence.
  lemma CompletionOutcome(a: A.Adm, packet: Bytes, sequence: u64, verify: A.Verifier)
    ensures !a.initialized ==> A.Admitted(a, packet, verify) == (a, A.NOT_READY, A.NOTHING)
    ensures A.Completed(a, sequence) ==
              if !a.initialized then (a, A.NOT_READY)
              else if a.pending != 0 && a.pending == sequence then (a.(pending := 0), A.ACCEPTED)
              else (a, A.BAD_COMPLETION)
  {
  }
}

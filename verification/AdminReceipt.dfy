// lib/admin_receipt.c: which execution receipts are possible, judged without
// seeing the policy that produced them.

module AdminReceipt {
  import opened Words
  import opened Policy

  datatype Receipt = Receipt(command: Command, decision: u64, auditOk: u64, applied: u64, post: Snapshot)

  predicate ExecutionValid(c: Command) {
    var r := c.request;
    if c.sequence == 0 || r.subject >= SUBJECTS || r.generation != 0 then false
    else if r.op == GRANT then r.obj == OBJECT && r.rights == READ
    else (r.op == REVOKE || r.op == QUARANTINE || r.op == RESTORE) && r.obj == 0 && r.rights == 0
  }

  predicate ReceiptValid(c: Command, r: Receipt) {
    var e := r.command;
    if !ExecutionValid(c) || !ExecutionValid(e)
       || c.sequence != e.sequence || c.expected != e.expected
       || c.request.op != e.request.op || c.request.subject != e.request.subject
       || c.request.obj != e.request.obj || c.request.rights != e.request.rights
       || r.auditOk > 1 || r.applied > 1 || !SnapshotValid(r.post) then false
    else
      var reduction := IsReduction(c.request.op);
      var applied := r.decision == OK && (r.auditOk != 0 || reduction);
      if (r.applied == 1) != applied then false
      else if r.decision == STALE then r.post.generation != c.expected
      else if r.decision != OK then
        && r.post.generation == c.expected
        && ((r.decision == ISOLATED && c.request.op == GRANT && r.post.state == QUARANTINED)
            || (r.decision == DENIED && c.request.op == RESTORE && r.post.state != QUARANTINED)
            || (r.decision == EXHAUSTED && c.request.op == GRANT
                && r.post.generation == U64_MAX && r.post.state != QUARANTINED))
      else if c.request.op == GRANT && c.expected == U64_MAX then false
      else
        var generation := if applied && c.expected != U64_MAX then c.expected + 1 else c.expected;
        if r.post.generation != generation then false
        else if !applied then
          if c.request.op == RESTORE then r.post.state == QUARANTINED
          else c.request.op == GRANT && r.post.state != QUARANTINED
        else if c.request.op == GRANT then r.post.state == ACTIVE
        else if c.request.op == QUARANTINE then r.post.state == QUARANTINED
        else if c.request.op == RESTORE then r.post.state == RESTRICTED
        else r.post.state != ACTIVE
  }

  function Flag(b: bool): u64 { if b then 1 else 0 }

  // What the policy owner does with an admitted command and reports about it
  // (servers/admin_policy.c), for either outcome of the audit.
  function Executed(p: Policy, c: Command, audit: bool): (Policy, Receipt)
    requires c.request.subject < SUBJECTS
  {
    var (candidate, decision) := CompareDecide(p, Admin, c);
    var live := Commit(p, candidate, c.request, decision, audit).0;
    (live, Receipt(c, decision.status, Flag(audit), Flag(decision.status == OK && (audit || IsReduction(c.request.op))),
                   SnapshotOf(live[c.request.subject])))
  }

  ghost predicate Explains(c: Command, r: Receipt, p: Policy, audit: bool) {
    c.request.subject < SUBJECTS && SnapshotValid(SnapshotOf(p[c.request.subject])) && Executed(p, c, audit).1 == r
  }

  // Some policy state and audit outcome the receipt can have come from.
  ghost predicate Explained(c: Command, r: Receipt) {
    exists p: Policy, audit: bool :: Explains(c, r, p, audit)
  }

  lemma HonestReceiptValid(p: Policy, c: Command, audit: bool)
    requires ExecutionValid(c) && SnapshotValid(SnapshotOf(p[c.request.subject]))
    ensures ReceiptValid(c, Executed(p, c, audit).1)
  {
  }

  // A state of the subject that leads to the receipt.
  function Before(c: Command, r: Receipt): Subject {
    if r.applied == 0 then Subject(r.post.generation, r.post.obj, r.post.rights, r.post.state)
    else if c.request.op == RESTORE || (c.request.op == REVOKE && r.post.state == QUARANTINED) then
      Subject(c.expected, 0, 0, QUARANTINED)
    else Subject(c.expected, 0, 0, RESTRICTED)
  }

  lemma ValidReceiptExplained(c: Command, r: Receipt)
    requires ReceiptValid(c, r)
    ensures Explained(c, r)
  {
    var p: Policy := INITIAL[c.request.subject := Before(c, r)];
    assert r.command == c;
    assert Explains(c, r, p, r.auditOk == 1);
  }

  // The checker accepts exactly the receipts that the policy owner can issue for
  // the command from some snapshot-valid state of its subject and some outcome
  // of the audit, saturated generations included.
  lemma ReceiptExact(c: Command, r: Receipt)
    ensures ReceiptValid(c, r) <==> ExecutionValid(c) && Explained(c, r)
  {
    if ReceiptValid(c, r) {
      ValidReceiptExplained(c, r);
    }
    if ExecutionValid(c) && Explained(c, r) {
      var p: Policy, audit: bool :| Explains(c, r, p, audit);
      HonestReceiptValid(p, c, audit);
    }
  }
}

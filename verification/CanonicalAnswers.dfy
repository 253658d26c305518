/** An item is answered exactly when an accepted publication completed a review of it: no other
    transaction of the canonical store invents an answer, and none loses one. */
module CanonicalAnswers {
  import opened Ordering
  import opened CanonicalTables
  import opened CanonicalTransactions
  import opened CanonicalInvariant
  import opened CanonicalEvolution
  import opened CanonicalAcceptance
  import opened CanonicalFencing
  import opened CanonicalMigration
  import opened CanonicalFrontier
  import opened CanonicalMaintenance
  import opened CanonicalRuns

  /** Somebody is answered afterwards who was not answered before. */
  ghost predicate Invents(a: Db, b: Db) {
    exists ref :: Answered(b, ref) && !Answered(a, ref)
  }

  lemma InventsTransitive(a: Db, b: Db, c: Db)
    requires !Invents(a, b) && !Invents(b, c)
    ensures !Invents(a, c)
  {
    hide Answered;
  }

  lemma NothingInvented(a: Db, b: Db, ref: ItemRef)
    requires !Invents(a, b) && Answered(b, ref)
    ensures Answered(a, ref)
  {
    hide Answered;
  }

  lemma SameEvidenceInventsNothing(a: Db, b: Db)
    requires b.v1 == a.v1 && b.chunks == a.chunks && b.v2 == a.v2 && b.exports == a.exports
    requires b.imports == a.imports && b.receipts == a.receipts && b.bucket == a.bucket && b.answers == a.answers
    ensures !Invents(a, b)
  {
    hide EvidenceAt;
    forall ref | Answered(b, ref) ensures Answered(a, ref) {
      SameEvidence(a, b, KeyOf(ref, Items));
      SameEvidence(a, b, KeyOf(ref, Closed));
    }
  }

  lemma RememberInventsNothing(db: Db, ref: ItemRef)
    ensures !Invents(db, Remember(db, ref))
  {
    hide Remember, Answered;
    RememberIsFaithful(db, ref);
  }

  // ----- dropping receipts -----

  lemma DroppedEvidenceIsOld(db: Db, rs: set<ReceiptKey>, k: Key)
    requires ReceiptsUnique(db) && EvidenceAt(Drop(db, rs), k).Answers?
    ensures EvidenceAt(db, k).Answers?
  {
    var u := Drop(db, rs);
    assert ExportBody(u, k) == ExportBody(db, k) by { assert V1Body(u, k) == V1Body(db, k); }
    hide ExportBody;
    var r :| r in Provenance(u, k) && u.receipts[r].lifecycle.Some?;
    assert r in Provenance(db, k);
    forall q | q in Provenance(db, k) ensures q == r {}
  }

  lemma DropInventsNothing(db: Db, rs: set<ReceiptKey>)
    requires ReceiptsUnique(db)
    ensures !Invents(db, Drop(db, rs))
  {
    hide EvidenceAt, ReceiptsUnique;
    var u := Drop(db, rs);
    forall ref | Answered(u, ref) ensures Answered(db, ref) {
      if ref !in db.answers {
        var k := if EvidenceAt(u, KeyOf(ref, Items)).Answers? then KeyOf(ref, Items) else KeyOf(ref, Closed);
        DroppedEvidenceIsOld(db, rs, k);
      }
    }
  }

  lemma PruneInventsNothing(db: Db, now: int)
    requires Inv(db)
    ensures !Invents(db, Prune(db, now))
  {
    hide Expired, RememberEach, Answered, Inv, Drop, AnswersOnly;
    var rs := Expired(db, now);
    var m := RememberEach(db, rs);
    RememberEachFacts(db, rs);
    AnswersOnlyKeepsInv(db, m);
    InvIsReceipts(m);
    DropInventsNothing(m, Members(rs));
    InventsTransitive(db, m, Drop(m, Members(rs)));
  }

  // ----- writing a tuple above its receipts -----

  /** No published receipt of the item names the revision, or one above it. */
  ghost predicate Unclaimed(db: Db, ref: ItemRef, revision: int) {
    forall r | r in db.receipts && db.receipts[r].state.Published? && OwnerRef(db.receipts[r].target) == ref ::
      db.receipts[r].commit.Some? && db.receipts[r].commit.value < revision
  }

  lemma FittingIsUnclaimed(db: Db, ref: ItemRef, revision: int)
    requires ReceiptsFit(db) && revision > TupleRevision(db, ref)
    ensures Unclaimed(db, ref, revision)
  {
    hide TupleRevision;
  }

  lemma UnclaimedProvesNothing(db: Db, k: Key)
    requires k in db.v1 && OwnerRef(db.v1[k].meta.owner) == RefOf(k) && Unclaimed(db, RefOf(k), db.v1[k].meta.revision)
    ensures !EvidenceAt(db, k).Answers?
  {
    hide ExportBody;
    if k !in db.v2 {
      assert Provenance(db, k) == {};
    }
  }

  lemma NoRowProvesNothing(db: Db, k: Key)
    requires k !in db.v1
    ensures !EvidenceAt(db, k).Answers?
  {
    hide ExportBody;
  }

  lemma PlaceInventsNothing(db: Db, u: Db, k: Key, body: Option<Body>, meta: Meta, rowid: int)
    requires Placed(db, u, k, body, meta, rowid) && Formats(db)
    requires OwnerRef(meta.owner) == RefOf(k) && Unclaimed(db, RefOf(k), meta.revision)
    ensures !Invents(db, u)
  {
    PlacedSameElsewhere(db, u, k, body, meta, rowid);
    assert k in u.v1 ==> u.v1[k].meta == meta;
    hide EvidenceAt, Placed, Formats;
    forall ref | Answered(u, ref) ensures Answered(db, ref) {
      if ref !in db.answers {
        var j := if EvidenceAt(u, KeyOf(ref, Items)).Answers? then KeyOf(ref, Items) else KeyOf(ref, Closed);
        if j == k {
          if k in u.v1 { UnclaimedProvesNothing(u, k); } else { NoRowProvesNothing(u, k); }
        } else {
          PlacedEvidence(db, u, k, body, meta, rowid, j);
        }
      }
    }
  }

  /** The file is a complete review, written by a publication that is no requeue. */
  ghost predicate Credits(op: Op, w: Writer) {
    w.credit == Some(true) && Primary(op.section) && op.content.Some? && op.content.value.completesReview
  }

  lemma CreditInvents(p: Db, op: Op, w: Writer, ref: ItemRef)
    requires Answered(Credit(p, op, w), ref)
    ensures Answered(p, ref) || (ref == w.ref && Credits(op, w))
  {
    hide EvidenceAt;
    var u := Credit(p, op, w);
    SameEvidence(p, u, KeyOf(ref, Items));
    SameEvidence(p, u, KeyOf(ref, Closed));
  }

  lemma WriteInvents(db: Db, op: Op, w: Writer, ref: ItemRef)
    requires Formats(db) && OwnerRef(w.owner) == w.ref && Unclaimed(db, w.ref, w.revision)
    requires WriteOp(db, op, w).Some? && Answered(WriteOp(db, op, w).value, ref)
    ensures Answered(db, ref) || (ref == w.ref && Credits(op, w))
  {
    hide Place, Placed, Remember, Answered, WriteOp, Seeded, Credit, AnswersOnly, Formats, Credits, Invents;
    var k := KeyOf(w.ref, op.section);
    var s := Seeded(db, op, w);
    var p := Place(s, k, Payload(op), MetaFor(op, w));
    WriteOpShape(db, op, w);
    SeededIsFaithful(db, op, w);
    assert Unclaimed(s, w.ref, w.revision) by { SeededReceipts(db, s, w.ref, w.revision); }
    var rowid := PlaceIsPlaced(s, k, Payload(op), MetaFor(op, w));
    PlaceInventsNothing(s, p, k, Payload(op), MetaFor(op, w), rowid);
    CreditInvents(p, op, w, ref);
    if Answered(p, ref) { NothingInvented(s, p, ref); }
  }

  lemma SeededReceipts(a: Db, b: Db, ref: ItemRef, revision: int)
    requires AnswersOnly(a, b) && Unclaimed(a, ref, revision)
    ensures Unclaimed(b, ref, revision)
  {
  }

  lemma {:induction false} WriteAllInvents(db: Db, ops: seq<Op>, w: Writer, ref: ItemRef)
    requires Formats(db) && OwnerRef(w.owner) == w.ref && Unclaimed(db, w.ref, w.revision)
    requires WriteAll(db, ops, w).Some? && Answered(WriteAll(db, ops, w).value, ref)
    ensures Answered(db, ref) || (ref == w.ref && exists op | op in ops :: Credits(op, w))
    decreases |ops|
  {
    hide Formats, WriteOp, Answered, Credits, FeedMoves, Shrinks, Within;
    if ops != [] {
      var v := WriteOp(db, ops[0], w).value;
      WriteMoves(db, ops[0], w);
      WriteKeepsFormats(db, ops[0], w);
      WriteAllInvents(v, ops[1..], w, ref);
      if Answered(v, ref) { WriteInvents(db, ops[0], w, ref); }
    }
  }

  // ----- what a credit leaves -----

  ghost predicate Secured(db: Db, ref: ItemRef) { ref in db.answers && db.answers[ref] }

  /** A complete file leaves the item in the answer table, and a credited one leaves it answered. */
  lemma WriteCredits(db: Db, op: Op, w: Writer)
    requires WriteOp(db, op, w).Some? && w.credit.Some?
    ensures var u := WriteOp(db, op, w).value;
            && (w.ref in db.answers ==> w.ref in u.answers)
            && (Secured(db, w.ref) ==> Secured(u, w.ref))
            && (Primary(op.section) && op.content.Some? && op.content.value.completesReview ==> w.ref in u.answers)
            && (Credits(op, w) ==> Secured(u, w.ref))
  {
    hide LazyAnswer, LazyStale, NewRowid, Chunked;
  }

  lemma {:induction false} WriteAllCredits(db: Db, ops: seq<Op>, w: Writer)
    requires WriteAll(db, ops, w).Some? && w.credit.Some?
    ensures var u := WriteAll(db, ops, w).value;
            && (w.ref in db.answers ==> w.ref in u.answers)
            && (Secured(db, w.ref) ==> Secured(u, w.ref))
            && (forall op | op in ops && Primary(op.section) && op.content.Some? && op.content.value.completesReview :: w.ref in u.answers)
            && ((exists op | op in ops :: Credits(op, w)) ==> Secured(u, w.ref))
    decreases |ops|
  {
    hide WriteOp, Secured, Credits;
    if ops != [] {
      WriteCredits(db, ops[0], w);
      WriteAllCredits(WriteOp(db, ops[0], w).value, ops[1..], w);
      assert forall op | op in ops :: op == ops[0] || op in ops[1..];
    }
  }

  // ----- a publication -----

  /** Some file of the plan is a complete review, and the plan is no requeue. */
  ghost predicate Completes(plan: Plan) {
    && plan.lifecycle != Some(Requeue)
    && exists op | op in plan.ops :: Primary(op.section) && op.content.Some? && op.content.value.completesReview
  }

  /** Stripping retired cache data never makes a report complete. */
  ghost predicate StripsFaithfully(ops: seq<Op>) {
    forall op | op in ops && op.stripped.Some? && op.stripped.value.completesReview ::
      op.content.Some? && op.content.value.completesReview
  }

  /** The publication's own rows prove nothing new unless one of its files was complete. */
  lemma OwnRowsProveNothing(o: Db, x: Db, ops: seq<Op>, w: Writer, y: Db, k: Key)
    requires WriteAll(o, ops, w) == Some(x) && Formats(o) && Inv(y)
    requires forall i, j | 0 <= i < j < |ops| :: ops[i].section != ops[j].section
    requires y.v1 == x.v1 && y.v2 == x.v2 && RefOf(k) == w.ref
    requires StripsFaithfully(ops) && forall op | op in ops && op.content.Some? :: Primary(op.section) ==> !op.content.value.completesReview
    requires Primary(k.section) && w.revision > TupleRevision(o, w.ref) && k in y.v1 && y.v1[k].meta.revision == w.revision
    ensures !EvidenceAt(y, k).Answers?
  {
    hide Inv, WriteAll, TupleRevision, Formats, Provenance, ExportBody;
    WriteAllIsExact(o, ops, w, k);
    if k in y.exports && y.exports[k].digest.Some? && k !in y.v2 {
      EntriesResolve(y, k);
      assert Agreement(y) by { InvIsSourced(y); }
      if op :| op in ops && KeyOf(w.ref, op.section) == k {
        assert RowIs(x, op, w);
        assert y.v1[k].meta.digest == DigestOf(Payload(op));
      } else {
        UntouchedRowIsOld(o, x, k);
      }
    }
  }

  lemma UntouchedRowIsOld(o: Db, x: Db, k: Key)
    requires SameRow(o, x, k) && Primary(k.section)
    ensures Stored(x, k) ==> MetaOf(x, k).revision <= TupleRevision(o, RefOf(k))
  {
    hide TupleRevision;
    assert k == KeyOf(RefOf(k), k.section);
    assert Revision(o, k) <= TupleRevision(o, RefOf(k));
  }

  lemma RecordInvents(o: Db, x: Db, ops: seq<Op>, w: Writer, key: ReceiptKey, r: Receipt, ref: ItemRef)
    requires WriteAll(o, ops, w) == Some(x) && Formats(o) && Inv(Recorded(x, key, r))
    requires forall i, j | 0 <= i < j < |ops| :: ops[i].section != ops[j].section
    requires StripsFaithfully(ops) && w.revision > TupleRevision(o, w.ref) && w.credit.Some?
    requires key !in x.receipts && r.target == w.owner && OwnerRef(w.owner) == w.ref && r.commit == Some(w.revision)
    requires Owned(x) && Answered(Recorded(x, key, r), ref)
    ensures Answered(x, ref)
  {
    hide Inv, WriteAll, TupleRevision, Formats, EvidenceAt, Wrote, StripsFaithfully, Owned, Secured, Credits;
    var y := Recorded(x, key, r);
    WriteAllCredits(o, ops, w);
    if ref !in x.answers {
      var k := if EvidenceAt(y, KeyOf(ref, Items)).Answers? then KeyOf(ref, Items) else KeyOf(ref, Closed);
      if Stored(x, k) && Wrote(r, MetaOf(x, k)) {
        assert ref == w.ref && MetaOf(x, k).revision == w.revision by { WroteOwnRow(x, k, r, w); }
        if k in y.v1 && k !in y.v2 { OwnRowsProveNothing(o, x, ops, w, y, k); }
        else if k in y.v2 { SecondFormatProvesNothing(y, k); } else { NoRowProvesNothing(y, k); }
      } else {
        RecordForeignEvidence(x, key, r, k);
      }
    }
  }

  lemma SecondFormatProvesNothing(db: Db, k: Key)
    requires k in db.v2
    ensures !EvidenceAt(db, k).Answers?
  {
  }

  lemma WroteOwnRow(x: Db, k: Key, r: Receipt, w: Writer)
    requires Owned(x) && Stored(x, k) && Wrote(r, MetaOf(x, k))
    requires r.target == w.owner && OwnerRef(w.owner) == w.ref && r.commit == Some(w.revision)
    ensures RefOf(k) == w.ref && MetaOf(x, k).revision == w.revision
  {
  }

  lemma RecordUnpublishedInventsNothing(db: Db, key: ReceiptKey, r: Receipt)
    requires key !in db.receipts && !r.state.Published?
    ensures !Invents(db, Recorded(db, key, r))
  {
    hide EvidenceAt;
    var u := Recorded(db, key, r);
    forall ref | Answered(u, ref) ensures Answered(db, ref) {
      RecordUnpublishedEvidence(db, key, r, KeyOf(ref, Items));
      RecordUnpublishedEvidence(db, key, r, KeyOf(ref, Closed));
    }
  }

  lemma WrittenAnswers(o: Db, x: Db, ops: seq<Op>, w: Writer, key: ReceiptKey, r: Receipt, ref: ItemRef)
    requires Inv(o) && WriterFits(o, w) && (forall op | op in ops :: OpFits(op)) && WriteAll(o, ops, w) == Some(x)
    requires forall i, j | 0 <= i < j < |ops| :: ops[i].section != ops[j].section
    requires StripsFaithfully(ops) && w.revision > TupleRevision(o, w.ref) && w.credit.Some? && OwnerRef(w.owner) == w.ref
    requires key !in o.receipts && r.target == w.owner && r.commit == Some(w.revision) && Inv(Recorded(x, key, r))
    ensures var y := Recorded(x, key, r);
            var credited := ref == w.ref && exists op | op in ops :: Credits(op, w);
            && (Answered(y, ref) ==> Answered(o, ref) || credited)
            && (credited ==> Answered(y, ref))
  {
    hide Inv, TupleRevision, WriteAll, WriterFits, Answered, Credits, StripsFaithfully, OpFits, WellKeyed, RowidsDistinct, FeedOrder,
      Formats, FeedMoves, Shrinks, Within, Remembers, Owned, ReceiptsFit, ReceiptsUnique, Unclaimed, Secured;
    InvIsFormats(o);
    InvIsReceipts(o);
    FittingIsUnclaimed(o, w.ref, w.revision);
    WriteAllKeeps(o, ops, w);
    InvIsReceipts(x);
    WriteAllCredits(o, ops, w);
    var y := Recorded(x, key, r);
    if Answered(y, ref) {
      RecordInvents(o, x, ops, w, key, r, ref);
      WriteAllInvents(o, ops, w, ref);
    }
    if Secured(x, w.ref) { SecuredIsAnswered(x, y, w.ref); }
  }

  /** An accepted publication answers its item exactly when it completes a review. */
  lemma PublishAnswers(o: Db, plan: Plan, now: int, prepared: set<Digest>, x: Db, ref: ItemRef)
    requires Inv(o) && ValidPlan(plan) && prepared <= o.bucket && TupleOps(plan.ops).Some? && StripsFaithfully(plan.ops)
    requires ReceiptKey(plan.fence, plan.revision) !in o.receipts
    requires WriteAll(o, TupleOps(plan.ops).value, PlanWriter(plan, now, PublishRevision(o, plan), prepared)) == Some(x)
    ensures var y := Recorded(x, ReceiptKey(plan.fence, plan.revision),
                              ReceiptOf(plan, Published, now, Some(PublishRevision(o, plan))));
            Answered(y, ref) <==> Answered(o, ref) || (ref == plan.Ref() && Completes(plan))
  {
    hide Inv, TupleRevision, WriteAll, TupleOps, WriterFits, ValidPlan, Answered, Evolves, Credits, Completes, StripsFaithfully, OpFits,
      PublishRevision, Recorded;
    var ops := TupleOps(plan.ops).value;
    var w := PlanWriter(plan, now, PublishRevision(o, plan), prepared);
    var key := ReceiptKey(plan.fence, plan.revision);
    var r := ReceiptOf(plan, Published, now, Some(PublishRevision(o, plan)));
    TupleOpsDistinct(plan);
    TupleOpsFit(plan);
    CompletedFiles(plan, ops, w);
    PublishWriterFits(o, plan, now, prepared);
    PublishKeeps(o, plan, now, prepared, x);
    WrittenAnswers(o, x, ops, w, key, r, ref);
    if Answered(o, ref) { StillAnswered(o, Recorded(x, key, r), ref); }
  }

  lemma StillAnswered(a: Db, b: Db, ref: ItemRef)
    requires Evolves(a, b) && Answered(a, ref)
    ensures Answered(b, ref)
  {
    hide Answered, FeedMoves, ViewRaises, Shrinks;
  }

  lemma SecuredIsAnswered(x: Db, y: Db, ref: ItemRef)
    requires Secured(x, ref) && y.answers == x.answers
    ensures Answered(y, ref)
  {
  }

  /** The deletions a tuple is completed with complete nothing. */
  lemma CompletedFiles(plan: Plan, ops: seq<Op>, w: Writer)
    requires ops != [] && (forall op | op in plan.ops :: op in ops)
    requires forall op | op in ops && op !in plan.ops :: op == Op(op.section, None, None)
    requires w.credit == Some(plan.lifecycle != Some(Requeue))
    ensures (exists op | op in ops :: Credits(op, w)) <==> Completes(plan)
    ensures StripsFaithfully(plan.ops) ==> StripsFaithfully(ops)
  {
    if op :| op in ops && Credits(op, w) {
      assert op in plan.ops;
    }
    if Completes(plan) {
      var op :| op in plan.ops && Primary(op.section) && op.content.Some? && op.content.value.completesReview;
      assert op in ops && Credits(op, w);
    }
  }

  /** How an acceptance ends: published, recorded as superseded, or with receipts pruned at most. */
  lemma AcceptCases(db: Db, plan: Plan, now: int, prepared: set<Digest>)
    ensures var a := AcceptPlan(db, plan, now, prepared);
            var p := Prune(db, now);
            var key := ReceiptKey(plan.fence, plan.revision);
            var o := Drop(p, {key});
            var open := TupleOps(plan.ops).Some? && (key in p.receipts ==> !p.receipts[key].state.Published?);
            || (!a.verdict.Accepted? && (a.db == db || a.db == p))
            || (open && !a.verdict.Accepted? && a.db == Recorded(o, key, ReceiptOf(plan, Superseded, now, None)))
            || (open && a.verdict.Accepted? && Publishes(o, plan, now, prepared, a.db))
  {
    hide Prune, WriteAll, TupleOps, TupleRevision, PlanWriter, StoredOps, SamePayload, ReceiptOf, NewerRetained, Drop;
  }

  ghost predicate Publishes(o: Db, plan: Plan, now: int, prepared: set<Digest>, u: Db)
    requires TupleOps(plan.ops).Some?
  {
    var x := WriteAll(o, TupleOps(plan.ops).value, PlanWriter(plan, now, PublishRevision(o, plan), prepared));
    && x.Some?
    && u == Recorded(x.value, ReceiptKey(plan.fence, plan.revision), ReceiptOf(plan, Published, now, Some(PublishRevision(o, plan))))
  }

  /** Of all verdicts only an acceptance answers, and it answers its own item, by a complete review. */
  lemma AcceptAnswers(db: Db, plan: Plan, now: int, prepared: set<Digest>, ref: ItemRef)
    requires Inv(db) && ValidPlan(plan) && prepared <= db.bucket && StripsFaithfully(plan.ops)
    ensures var a := AcceptPlan(db, plan, now, prepared);
            Answered(a.db, ref) <==> Answered(db, ref) || (a.verdict.Accepted? && ref == plan.Ref() && Completes(plan))
  {
    hide Inv, Evolves, Prune, TupleOps, ValidPlan, AcceptPlan, WellKeyed, RowidsDistinct, Formats, FeedOrder, Answered, Completes,
      StripsFaithfully, Invents, Recorded, WriteAll, PlanWriter, PublishRevision, ReceiptOf;
    var a := AcceptPlan(db, plan, now, prepared);
    var p := Prune(db, now);
    var key := ReceiptKey(plan.fence, plan.revision);
    var o := Drop(p, {key});
    AcceptKeeps(db, plan, now, prepared);
    if Answered(db, ref) { StillAnswered(db, a.db, ref); }
    PruneKeeps(db, now);
    PruneInventsNothing(db, now);
    AcceptCases(db, plan, now, prepared);
    if a.verdict.Accepted? || (a.db != db && a.db != p) {
      InvIsReceipts(p);
      DropUnpublishedKeeps(p, key);
      DropInventsNothing(p, {key});
      InventsTransitive(db, p, o);
      assert prepared <= o.bucket by { PruneTouchesOnlyReceipts(db, now); }
      if a.verdict.Accepted? {
        var x := WriteAll(o, TupleOps(plan.ops).value, PlanWriter(plan, now, PublishRevision(o, plan), prepared)).value;
        PublishAnswers(o, plan, now, prepared, x, ref);
        if Answered(o, ref) { NothingInvented(db, o, ref); }
      } else {
        var r := ReceiptOf(plan, Superseded, now, None);
        assert !r.state.Published? by { SupersededReceipt(plan, now); }
        RecordUnpublishedInventsNothing(o, key, r);
        InventsTransitive(db, o, a.db);
        if Answered(a.db, ref) { NothingInvented(db, a.db, ref); }
      }
    } else if Answered(a.db, ref) {
      if a.db == p { NothingInvented(db, p, ref); }
    }
  }

  lemma SupersededReceipt(plan: Plan, now: int)
    ensures !ReceiptOf(plan, Superseded, now, None).state.Published?
  {
  }

  // ----- every other transaction -----

  lemma MoveInventsNothing(db: Db, m: Mutation, now: int, prepared: set<Digest>)
    requires Inv(db) && ValidMutation(m) && prepared <= db.bucket
    ensures !Invents(db, MoveTuple(db, m, now, prepared).db)
  {
    hide Inv, Evolves, WriteAll, TupleRevision, StoredOps, PruneDeliveries, Unchanged, ValidMutation, Answered, WellKeyed,
      RowidsDistinct, FeedOrder, Formats, Credits, WriterFits, ReceiptsFit, ReceiptsUnique, Owned;
    var p := PruneDeliveries(db, now);
    PrunedDeliveries(db, now);
    DeliveriesOnlyKeeps(db, p);
    SameEvidenceInventsNothing(db, p);
    var u := MoveTuple(db, m, now, prepared).db;
    if u != db && u != p {
      var w := MoveWriter(p, m, now, prepared);
      var x := WriteAll(p, m.ops, w).value;
      MoveWriterFits(p, m, now, prepared);
      MoveWriterCreditsNothing(p, m, now, prepared);
      InvIsFormats(p);
      InvIsReceipts(p);
      FittingIsUnclaimed(p, w.ref, w.revision);
      forall ref | Answered(x, ref) ensures Answered(p, ref) { WriteAllInvents(p, m.ops, w, ref); }
      SameEvidenceInventsNothing(x, u);
      InventsTransitive(db, p, x);
      InventsTransitive(db, x, u);
    }
  }

  lemma MoveWriterCreditsNothing(p: Db, m: Mutation, now: int, prepared: set<Digest>)
    ensures var w := MoveWriter(p, m, now, prepared);
            w.ref == m.Ref() && OwnerRef(w.owner) == w.ref && forall op :: !Credits(op, w)
  {
    hide TupleRevision;
  }

  lemma BumpInventsNothing(db: Db, u: Db, k: Key, revision: int)
    requires Bumped(db, u, k, revision) && Owned(db) && Unclaimed(db, RefOf(k), revision)
    ensures !Invents(db, u)
  {
    assert u.answers == db.answers && Unclaimed(u, RefOf(k), revision);
    assert u.v1[k].meta.revision == revision && OwnerRef(u.v1[k].meta.owner) == RefOf(k);
    hide EvidenceAt, Bumped, Owned, Unclaimed;
    forall ref | Answered(u, ref) ensures Answered(db, ref) {
      if ref !in db.answers {
        var j := if EvidenceAt(u, KeyOf(ref, Items)).Answers? then KeyOf(ref, Items) else KeyOf(ref, Closed);
        if j == k { UnclaimedProvesNothing(u, k); } else { BumpedEvidence(db, u, k, revision, j); }
      }
    }
  }

  lemma RetireSectionInventsNothing(db: Db, t: RetireTuple, s: Section, now: int, revision: int, prepared: set<Digest>)
    requires Inv(db) && RetireFits(t) && Unclaimed(db, t.ref, revision)
    requires RetireSection(db, t, s, now, revision, prepared).Some?
    ensures var u := RetireSection(db, t, s, now, revision, prepared).value;
            !Invents(db, u) && Unclaimed(u, t.ref, revision)
  {
    hide Inv, WriteOp, OpFits, Bump, Answered, Unclaimed, FeedMoves, Shrinks, Within, Credits, Bumped, WellKeyed, RowidsDistinct,
      FeedOrder, Formats, ReceiptsFit, ReceiptsUnique, Owned;
    var k := KeyOf(t.ref, s);
    var op := OpFor(t.ops, s);
    InvIsFormats(db);
    InvIsReceipts(db);
    var u := RetireSection(db, t, s, now, revision, prepared).value;
    if k in t.rows && op.Some? {
      var w := RetireWriter(t, k, now, revision, prepared);
      WriteMoves(db, op.value, w);
      assert !Credits(op.value, w) by { NoCredit(op.value, w); }
      forall ref | Answered(u, ref) ensures Answered(db, ref) { WriteInvents(db, op.value, w, ref); }
      SameReceiptsUnclaimed(db, u, t.ref, revision);
    } else if k in t.rows && k in db.v1 && k in db.exports {
      BumpIsBumped(db, k, revision, now);
      BumpInventsNothing(db, u, k, revision);
      assert u.receipts == db.receipts by { BumpedReceipts(db, u, k, revision); }
      SameReceiptsUnclaimed(db, u, t.ref, revision);
    }
  }

  lemma NoCredit(op: Op, w: Writer)
    requires w.credit.None?
    ensures !Credits(op, w)
  {
  }

  lemma BumpedReceipts(db: Db, u: Db, k: Key, revision: int)
    requires Bumped(db, u, k, revision)
    ensures u.receipts == db.receipts
  {
  }

  lemma SameReceiptsUnclaimed(a: Db, b: Db, ref: ItemRef, revision: int)
    requires Unclaimed(a, ref, revision) && b.receipts == a.receipts
    ensures Unclaimed(b, ref, revision)
  {
  }

  lemma {:induction false} RetireSectionsInventNothing(db: Db, t: RetireTuple, sections: seq<Section>, now: int, revision: int,
                                                       prepared: set<Digest>)
    requires Inv(db) && RetireFits(t) && prepared <= db.bucket && Unclaimed(db, t.ref, revision)
    requires revision >= 1 && revision >= TupleRevision(db, t.ref)
    requires RetireSections(db, t, sections, now, revision, prepared).Some?
    ensures !Invents(db, RetireSections(db, t, sections, now, revision, prepared).value)
    decreases |sections|
  {
    hide Inv, Rewritten, TupleRevision, RetireSection, RetireFits, WellKeyed, RowidsDistinct, Formats, FeedOrder, Answered, Unclaimed,
      Invents;
    if sections == [] {
      InventsNothingItself(db);
    } else {
      var v := RetireSection(db, t, sections[0], now, revision, prepared).value;
      RetireSectionKeeps(db, t, sections[0], now, revision, prepared);
      RetireSectionInventsNothing(db, t, sections[0], now, revision, prepared);
      InvIsFormats(db);
      RewrittenKeepsRevision(db, v, t.ref, revision);
      assert prepared <= v.bucket by { RewrittenBucket(db, v, t.ref, revision); }
      RetireSectionsInventNothing(v, t, sections[1..], now, revision, prepared);
      InventsTransitive(db, v, RetireSections(db, t, sections, now, revision, prepared).value);
    }
  }

  lemma InventsNothingItself(db: Db)
    ensures !Invents(db, db)
  {
    hide Answered;
  }

  lemma RetireTupleInventsNothing(db: Db, t: RetireTuple, now: int, prepared: set<Digest>)
    requires Inv(db) && (forall op | op in t.ops :: OpFits(op)) && prepared <= db.bucket
    requires RetireTupleTx(db, t, now, prepared).Some?
    ensures !Invents(db, RetireTupleTx(db, t, now, prepared).value)
  {
    hide Inv, Remember, TupleRevision, RetireConflicts, RetireSections, RetireFits, OpFits, Answered, AnswersOnly, Unclaimed, Invents,
      ReceiptsFit, ReceiptsUnique, Owned;
    InventsNothingItself(db);
    if !RetireConflicts(db, t) {
      var s := Remember(db, t.ref);
      UnchangedRowsFit(db, t);
      RememberIsFaithful(db, t.ref);
      RememberInventsNothing(db, t.ref);
      AnswersOnlyKeepsInv(db, s);
      InvTupleRevision(s, t.ref);
      InvIsReceipts(s);
      assert prepared <= s.bucket by { AnswersOnlyElsewhere(db, s); }
      FittingIsUnclaimed(s, t.ref, TupleRevision(s, t.ref) + 1);
      RetireSectionsInventNothing(s, t, SECTION_ORDER, now, TupleRevision(s, t.ref) + 1, prepared);
      InventsTransitive(db, s, RetireTupleTx(db, t, now, prepared).value);
    }
  }

  lemma {:induction false} RetireAllInventsNothing(db: Db, ts: seq<RetireTuple>, now: int, prepared: set<Digest>)
    requires Inv(db) && (forall t, op | t in ts && op in t.ops :: OpFits(op)) && prepared <= db.bucket
    requires RetireAll(db, ts, now, prepared).Some?
    ensures !Invents(db, RetireAll(db, ts, now, prepared).value)
    decreases |ts|
  {
    hide Inv, Evolves, RetireTupleTx, OpFits, Invents;
    InventsNothingItself(db);
    if ts != [] {
      var v := RetireTupleTx(db, ts[0], now, prepared).value;
      assert ts[0] in ts;
      RetireTupleKeeps(db, ts[0], now, prepared);
      RetireTupleInventsNothing(db, ts[0], now, prepared);
      RetireAllInventsNothing(v, ts[1..], now, prepared);
      InventsTransitive(db, v, RetireAll(db, ts, now, prepared).value);
    }
  }

  lemma DetachInventsNothing(db: Db, u: Db, moved: set<Key>)
    requires WellKeyed(db) && Detached(db, u, moved)
    ensures !Invents(db, u)
  {
    assert u.answers == db.answers && forall k | k in moved :: k in u.v2;
    hide EvidenceAt, Detached, WellKeyed;
    forall ref | Answered(u, ref) ensures Answered(db, ref) {
      if ref !in db.answers {
        var j := if EvidenceAt(u, KeyOf(ref, Items)).Answers? then KeyOf(ref, Items) else KeyOf(ref, Closed);
        if j in moved { SecondFormatProvesNothing(u, j); } else { DetachedEvidence(db, u, moved, j); }
      }
    }
  }

  lemma CommitTupleInventsNothing(p: Progress, t: PassTuple)
    requires Inv(p.db)
    ensures !Invents(p.db, CommitTuple(p, t).db)
  {
    InventsNothingItself(p.db);
    if !Conflicts(p.db, t) {
      var m := Remember(p.db, t.ref);
      var u := Detach(m, t.snapshot);
      assert TakeSnapshot(p.db, t.ref) == t.snapshot && CommitTuple(p, t).db == u;
      hide Inv, Remember, Answered, Detach, Detached, TakeSnapshot, Conflicts, CommitTuple, AnswersOnly, Invents, RowidsDistinct,
        FeedOrder, Formats;
      RememberIsFaithful(p.db, t.ref);
      RememberInventsNothing(p.db, t.ref);
      AnswersOnlyKeepsInv(p.db, m);
      AnswersOnlySnapshot(p.db, m, t.ref);
      InvIsFormats(m);
      DetachIsDetached(m, t.ref);
      SnapshotLegacy(m, t.ref);
      DetachInventsNothing(m, u, Legacy(t.snapshot));
      InventsTransitive(p.db, m, u);
    }
  }

  lemma {:induction false} CommitTuplesInventNothing(p: Progress, ts: seq<PassTuple>)
    requires Inv(p.db) && p.db.format.V2? && forall t | t in ts :: TupleBodiesStored(p.db, t)
    ensures !Invents(p.db, CommitTuples(p, ts).db)
    decreases |ts|
  {
    hide Inv, Evolves, CommitTuple, SameViews, TupleBodiesStored, Invents;
    InventsNothingItself(p.db);
    if ts != [] {
      var v := CommitTuple(p, ts[0]);
      assert ts[0] in ts;
      CommitTupleKeeps(p, ts[0]);
      CommitTupleInventsNothing(p, ts[0]);
      SameViewsElsewhere(p.db, v.db);
      forall t | t in ts[1..] ensures TupleBodiesStored(v.db, t) {
        assert TupleBodiesStored(p.db, t);
        BucketKeepsBodies(p.db, v.db, t);
      }
      CommitTuplesInventNothing(v, ts[1..]);
      InventsTransitive(p.db, v.db, CommitTuples(p, ts).db);
    }
  }

  lemma CommitInventsNothing(db: Db, pass: Pass, now: int)
    requires Inv(db) && PassBodies(pass) <= db.bucket
    ensures !Invents(db, CommitPass(db, pass, now))
  {
    hide Inv, CommitTuples, NextCheckpoint, TupleBodiesStored, Invents, PassBodies;
    InventsNothingItself(db);
    if PassIsCurrent(db, pass) && !MarkedComplete(pass.checkpoint) {
      var p := CommitTuples(Progress(db, 0, 0, 0), pass.tuples);
      PassBodiesStored(db, pass);
      CommitTuplesInventNothing(Progress(db, 0, 0, 0), pass.tuples);
      SameEvidenceInventsNothing(p.db, CommitPass(db, pass, now));
      InventsTransitive(db, p.db, CommitPass(db, pass, now));
    }
  }

  lemma SameTuplesInventNothing(a: Db, b: Db)
    requires SameTuples(a, b) && V2Bodies(a) && V2Bodies(b) && Agreement(a) && SameEvidenceEverywhere(a, b)
    ensures !Invents(a, b)
  {
    hide EvidenceAt, V2Bodies, Agreement;
    forall ref | Answered(b, ref) ensures Answered(a, ref) {
      SameTuplesEvidence(a, b, KeyOf(ref, Items));
      SameTuplesEvidence(a, b, KeyOf(ref, Closed));
    }
  }

  lemma InvIsBodies(db: Db)
    requires Inv(db)
    ensures V2Bodies(db) && Agreement(db)
  {
  }

  lemma PublishCommitInventsNothing(db: Db, repo: string, r: CommitRecord, now: int)
    requires Inv(db) && PublishCommit(db, repo, r, now).Some?
    ensures !Invents(db, PublishCommit(db, repo, r, now).value)
  {
    hide Inv, Evolves, Invents, V2Bodies, Agreement, CommittedRow, SameTuples, SameEvidenceEverywhere;
    var k := Key(repo, Commits, r.id);
    var u := PublishCommit(db, repo, r, now).value;
    InventsNothingItself(db);
    if k !in db.exports {
      var row := ImportRow(MaxImportRowid(db.imports) + 1, r.body);
      assert CommittedRow(db, u, k, row, now) by { CommitIsCommitted(db, repo, r, now); }
      CommittedElsewhere(db, u, k, row, now);
      CommittedKeeps(db, u, k, row, now);
      InvIsBodies(db);
      InvIsBodies(u);
      SameTuplesInventNothing(db, u);
    }
  }

  lemma CommitIsCommitted(db: Db, repo: string, r: CommitRecord, now: int)
    requires Key(repo, Commits, r.id) !in db.exports
    ensures CommittedRow(db, PublishCommit(db, repo, r, now).value, Key(repo, Commits, r.id),
                         ImportRow(MaxImportRowid(db.imports) + 1, r.body), now)
  {
    hide MaxImportRowid;
  }

  lemma {:induction false} PublishCommitsInventNothing(db: Db, repo: string, rs: seq<CommitRecord>, now: int)
    requires Inv(db) && PublishCommits(db, repo, rs, now).Some?
    ensures !Invents(db, PublishCommits(db, repo, rs, now).value)
    decreases |rs|
  {
    hide Inv, Evolves, PublishCommit, Invents;
    InventsNothingItself(db);
    if rs != [] {
      var v := PublishCommit(db, repo, rs[0], now).value;
      PublishCommitKeeps(db, repo, rs[0], now);
      PublishCommitInventsNothing(db, repo, rs[0], now);
      PublishCommitsInventNothing(v, repo, rs[1..], now);
      InventsTransitive(db, v, PublishCommits(db, repo, rs, now).value);
    }
  }

  lemma SweepInventsNothing(db: Db, among: set<Key>)
    requires Inv(db)
    ensures !Invents(db, DropShadows(db, among))
  {
    hide Inv, Evolves, Shadowed, Invents, V2Bodies, Agreement;
    DropShadowsKeeps(db, among);
    DropShadowsEvidence(db, among);
    InvIsBodies(db);
    InvIsBodies(DropShadows(db, among));
    SameTuplesInventNothing(db, DropShadows(db, among));
  }

  lemma StoringInventsNothing(db: Db, digest: Digest)
    requires Inv(db)
    ensures !Invents(db, db.(bucket := db.bucket + {digest}))
  {
    hide Inv, Evolves, Invents, V2Bodies, Agreement;
    var u := db.(bucket := db.bucket + {digest});
    StoringBodiesKeeps(db, {digest});
    InvIsBodies(db);
    InvIsBodies(u);
    SameTuplesInventNothing(db, u);
  }

  lemma OtherStepsInventNothing(history: seq<Db>, ev: Event)
    requires history != [] && Inv(history[|history| - 1]) && Enabled(history, ev) && !ev.Accept?
    ensures !Invents(history[|history| - 1], Step(history[|history| - 1], ev))
  {
    hide Inv, Invents, ValidMutation, MoveTuple, Activate, CommitPass, PublishCommits, RetireAll, DropShadows, Prune, Remember,
      PreparePass, PassBodies, OpFits, ScannedIn, RowidsDistinct;
    var db := history[|history| - 1];
    InventsNothingItself(db);
    match ev
    case Move(m, now, prepared) => MoveInventsNothing(db, m, now, prepared);
    case Start(approval, now) => ActivateInventsNothing(db, approval, now);
    case Commit(pass, now) => CommitInventsNothing(db, pass, now);
    case Record(repo, commits, now) =>
      if PublishCommits(db, repo, commits, now).Some? { PublishCommitsInventNothing(db, repo, commits, now); }
    case Retire(tuples, now, prepared) =>
      if RetireAll(db, tuples, now, prepared).Some? { RetireAllInventsNothing(db, tuples, now, prepared); }
    case Sweep(among) => SweepInventsNothing(db, among);
    case PruneReceipts(now) => PruneInventsNothing(db, now);
    case Ask(ref) => RememberInventsNothing(db, ref);
    case StoreBody(digest) => StoringInventsNothing(db, digest);
  }

  lemma ActivateInventsNothing(db: Db, approval: string, now: int)
    ensures !Invents(db, Activate(db, approval, now))
  {
    hide EvidenceAt, MaxRowid, Invents;
    InventsNothingItself(db);
    if db.format.V1? && db.tiering.None? { SameEvidenceInventsNothing(db, Activate(db, approval, now)); }
  }

  // ----- whole runs -----

  /** The step is an accepted publication that completes a review of the item. */
  ghost predicate Answering(db: Db, ev: Event, ref: ItemRef) {
    ev.Accept? && AcceptPlan(db, ev.plan, ev.now, ev.prepared).verdict.Accepted? && ev.plan.Ref() == ref && Completes(ev.plan)
  }

  lemma StepAnswers(history: seq<Db>, ev: Event, ref: ItemRef)
    requires history != []
    requires var db := history[|history| - 1];
             Inv(db) && Enabled(history, ev) && forall a | a in history :: Evolves(a, db)
    requires ev.Accept? ==> StripsFaithfully(ev.plan.ops)
    ensures var db := history[|history| - 1];
            Answered(Step(db, ev), ref) <==> Answered(db, ref) || Answering(db, ev, ref)
  {
    hide Inv, Evolves, Step, Answered, Invents, Completes, StripsFaithfully, PreparePass, PassBodies, OpFits, ScannedIn, AcceptPlan,
      ValidPlan, ValidMutation;
    var db := history[|history| - 1];
    if ev.Accept? {
      AcceptAnswers(db, ev.plan, ev.now, ev.prepared, ref);
      assert Step(db, ev) == AcceptPlan(db, ev.plan, ev.now, ev.prepared).db by { AcceptStep(db, ev); }
    } else {
      OtherStepsInventNothing(history, ev);
      StepKeeps(history, ev);
      if Answered(db, ref) { StillAnswered(db, Step(db, ev), ref); }
      if Answered(Step(db, ev), ref) { NothingInvented(db, Step(db, ev), ref); }
    }
  }

  lemma AcceptStep(db: Db, ev: Event)
    requires ev.Accept?
    ensures Step(db, ev) == AcceptPlan(db, ev.plan, ev.now, ev.prepared).db
  {
  }

  /** In every state of every run, whatever is migrated, retired, moved or pruned in between, an item
      is answered exactly when it was at the start, or an accepted publication has since completed a
      review of it that was no requeue. */
  lemma {:induction false} AnsweredExactlyWhenCompleted(h: seq<Db>, evs: seq<Event>, n: nat, ref: ItemRef)
    requires Run(h, evs) && Inv(h[0]) && n < |h|
    requires forall i | 0 <= i < |evs| && evs[i].Accept? :: StripsFaithfully(evs[i].plan.ops)
    ensures |h| == |evs| + 1
    ensures Answered(h[n], ref) <==> Answered(h[0], ref) || exists i | 0 <= i < n :: Answering(h[i], evs[i], ref)
    decreases n
  {
    hide Inv, Evolves, Enabled, Step, Answered, Answering, StripsFaithfully;
    if n > 0 {
      AnsweredExactlyWhenCompleted(h, evs, n - 1, ref);
      RunKeeps(h, evs, n - 1);
      assert Enabled(h[..n - 1 + 1], evs[n - 1]);
      StepAnswers(h[..n], evs[n - 1], ref);
    }
  }
}

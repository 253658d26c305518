/** Receipt pruning, direct publication and tuple compare-and-swap keep the invariant and undo
    nothing; retained receipts fence what may be written. */
module CanonicalAcceptance {
  import opened Ordering
  import opened CanonicalTables
  import opened CanonicalTransactions
  import opened CanonicalInvariant
  import opened CanonicalEvolution

  // ----- the receipt table -----

  ghost predicate ReceiptsOnly(a: Db, b: Db) {
    b == a.(receipts := b.receipts)
  }

  /** Evidence only changes where its provenance does. */
  lemma ReceiptsOnlyEvidence(a: Db, b: Db, k: Key)
    requires ReceiptsOnly(a, b)
    requires Stored(a, k) ==> forall r :: r in Provenance(a, k) <==> r in Provenance(b, k)
    requires Stored(a, k) ==> forall r | r in Provenance(a, k) :: b.receipts[r] == a.receipts[r]
    ensures EvidenceAt(b, k) == EvidenceAt(a, k)
  {
  }

  lemma DropKeepsReceipts(db: Db, rs: set<ReceiptKey>)
    requires ReceiptsFit(db) && ReceiptsUnique(db)
    ensures ReceiptsFit(Drop(db, rs)) && ReceiptsUnique(Drop(db, rs))
  {
    SameRecordsRevisions(db, Drop(db, rs));
    hide TupleRevision;
  }

  /** Dropping receipts loses no answer while every published one dropped is either irrelevant
      to the lazy answer or already remembered. */
  lemma DropRemembers(db: Db, rs: set<ReceiptKey>)
    requires Owned(db)
    requires forall r | r in rs && r in db.receipts && db.receipts[r].state.Published? ::
               Answered(db, OwnerRef(db.receipts[r].target)) ==> OwnerRef(db.receipts[r].target) in db.answers
    ensures Remembers(db, Drop(db, rs))
  {
    var u := Drop(db, rs);
    hide EvidenceAt;
    forall ref | Answered(db, ref) ensures Answered(u, ref) {
      if ref !in db.answers {
        DroppedEvidence(db, rs, KeyOf(ref, Items));
        DroppedEvidence(db, rs, KeyOf(ref, Closed));
      }
    }
  }

  lemma DroppedEvidence(db: Db, rs: set<ReceiptKey>, k: Key)
    requires Owned(db)
    requires forall r | r in rs && r in db.receipts && db.receipts[r].state.Published? ::
               OwnerRef(db.receipts[r].target) != RefOf(k)
    ensures EvidenceAt(Drop(db, rs), k) == EvidenceAt(db, k)
  {
    var u := Drop(db, rs);
    if Stored(db, k) {
      assert OwnerRef(MetaOf(db, k).owner) == RefOf(k);
      assert forall r | r in Provenance(db, k) :: r !in rs;
      ReceiptsOnlyEvidence(db, u, k);
    } else {
      ReceiptsOnlyEvidence(db, u, k);
    }
  }

  lemma {:induction false} RememberEachFacts(db: Db, rs: seq<ReceiptKey>)
    ensures var u := RememberEach(db, rs);
            && AnswersOnly(db, u)
            && (forall ref :: Answered(u, ref) == Answered(db, ref))
            && (forall ref | ref in db.answers :: ref in u.answers)
            && (forall r | r in rs && r in db.receipts && db.receipts[r].state.Published?
                           && Answered(db, OwnerRef(db.receipts[r].target)) :: OwnerRef(db.receipts[r].target) in u.answers)
    decreases |rs|
  {
    hide Answered, Remember;
    if rs != [] {
      var v := db;
      if rs[0] in db.receipts && db.receipts[rs[0]].state.Published? {
        var ref := OwnerRef(db.receipts[rs[0]].target);
        RememberIsFaithful(db, ref);
        RememberKeepsAnswers(db, ref);
        v := Remember(db, ref);
      }
      RememberEachFacts(v, rs[1..]);
    }
  }

  lemma RememberKeepsAnswers(db: Db, ref: ItemRef)
    ensures forall r | r in db.answers :: r in Remember(db, ref).answers
  {
  }

  lemma RememberedEvolves(db: Db, m: Db)
    requires AnswersOnly(db, m) && (forall ref :: Answered(m, ref) == Answered(db, ref))
    ensures Evolves(db, m)
  {
    hide Answered, FeedMoves, ViewRaises, Shrinks;
    SameRecordsMove(db, m);
  }

  lemma DropKeeps(db: Db, rs: set<ReceiptKey>)
    requires Inv(db)
    requires forall r | r in rs && r in db.receipts && db.receipts[r].state.Published? ::
               Answered(db, OwnerRef(db.receipts[r].target)) ==> OwnerRef(db.receipts[r].target) in db.answers
    ensures Inv(Drop(db, rs)) && Evolves(db, Drop(db, rs))
  {
    var u := Drop(db, rs);
    hide Inv, Answered, TupleRevision, FeedMoves, ViewRaises, Shrinks, Remembers, ReceiptsFit, ReceiptsUnique, Owned;
    InvIsReceipts(db);
    DropKeepsReceipts(db, rs);
    SameRecordsKeepInv(db, u);
    SameRecordsMove(db, u);
    DropRemembers(db, rs);
  }

  lemma PruneKeeps(db: Db, now: int)
    requires Inv(db)
    ensures Inv(Prune(db, now)) && Evolves(db, Prune(db, now))
  {
    hide Expired, RememberEach, Answered, Inv, Evolves, Drop, AnswersOnly;
    var rs := Expired(db, now);
    var m := RememberEach(db, rs);
    RememberEachFacts(db, rs);
    AnswersOnlyKeepsInv(db, m);
    RememberedEvolves(db, m);
    assert m.receipts == db.receipts by { AnswersOnlySameReceipts(db, m); }
    DropKeeps(m, Members(rs));
    InvIsFormats(db);
    EvolvesTransitive(db, m, Drop(m, Members(rs)));
  }

  lemma AnswersOnlySameReceipts(a: Db, b: Db)
    requires AnswersOnly(a, b)
    ensures b.receipts == a.receipts
  {
  }

  /** Pruning touches the receipt and answer tables and nothing else. */
  lemma PruneTouchesOnlyReceipts(db: Db, now: int)
    ensures var p := Prune(db, now);
            p == db.(receipts := p.receipts, answers := p.answers)
    ensures forall r | r in Prune(db, now).receipts :: r in db.receipts && Prune(db, now).receipts[r] == db.receipts[r]
  {
    hide Expired, RememberEach, Answered;
    RememberEachFacts(db, Expired(db, now));
  }

  lemma InvIsReceipts(db: Db)
    requires Inv(db)
    ensures ReceiptsFit(db) && ReceiptsUnique(db) && Owned(db)
  {
  }

  /** A receipt that is not published proves nothing, so it may go without being remembered. */
  lemma DropUnpublishedKeeps(db: Db, key: ReceiptKey)
    requires Inv(db) && (key in db.receipts ==> !db.receipts[key].state.Published?)
    ensures Inv(Drop(db, {key})) && Evolves(db, Drop(db, {key}))
  {
    var u := Drop(db, {key});
    hide Answered, TupleRevision, Inv;
    InvIsReceipts(db);
    DropKeepsReceipts(db, {key});
    SameRecordsKeepInv(db, u);
    SameRecordsMove(db, u);
    DropRemembers(db, {key});
  }

  // ----- recording a receipt -----

  function Recorded(db: Db, key: ReceiptKey, r: Receipt): Db {
    db.(receipts := db.receipts[key := r])
  }

  lemma RecordUnpublishedKeeps(db: Db, key: ReceiptKey, r: Receipt)
    requires Inv(db) && key !in db.receipts && !r.state.Published?
    ensures Inv(Recorded(db, key, r)) && Evolves(db, Recorded(db, key, r))
  {
    var u := Recorded(db, key, r);
    SameRecordsRevisions(db, u);
    SameRecordsMove(db, u);
    assert ReceiptsFit(u) && ReceiptsUnique(u) by { hide TupleRevision; }
    hide TupleRevision, Inv, EvidenceAt, ReceiptsFit, ReceiptsUnique;
    SameRecordsKeepInv(db, u);
    forall ref | Answered(db, ref) ensures Answered(u, ref) {
      RecordUnpublishedEvidence(db, key, r, KeyOf(ref, Items));
      RecordUnpublishedEvidence(db, key, r, KeyOf(ref, Closed));
    }
  }

  lemma RecordUnpublishedEvidence(db: Db, key: ReceiptKey, r: Receipt, k: Key)
    requires key !in db.receipts && !r.state.Published?
    ensures EvidenceAt(Recorded(db, key, r), k) == EvidenceAt(db, k)
  {
    ReceiptsOnlyEvidence(db, Recorded(db, key, r), k);
  }

  lemma RecordForeignEvidence(db: Db, key: ReceiptKey, r: Receipt, k: Key)
    requires key !in db.receipts && (Stored(db, k) ==> !Wrote(r, MetaOf(db, k)))
    ensures EvidenceAt(Recorded(db, key, r), k) == EvidenceAt(db, k)
  {
    ReceiptsOnlyEvidence(db, Recorded(db, key, r), k);
  }

  /** The primary rows of a tuple are as they were. */
  ghost predicate PrimariesKept(a: Db, b: Db, ref: ItemRef) {
    && SameRow(a, b, KeyOf(ref, Items))
    && SameRow(a, b, KeyOf(ref, Closed))
  }

  ghost predicate SameRow(a: Db, b: Db, k: Key) {
    && Stored(a, k) == Stored(b, k)
    && (Stored(a, k) ==> MetaOf(b, k) == MetaOf(a, k))
  }

  lemma WriteSecuresAnswer(db: Db, op: Op, w: Writer)
    requires Formats(db) && WriteOp(db, op, w).Some? && Answered(db, w.ref)
    ensures var u := WriteOp(db, op, w).value;
            w.ref in u.answers || PrimariesKept(db, u, w.ref)
    ensures w.ref in db.answers ==> w.ref in WriteOp(db, op, w).value.answers
  {
    var k := KeyOf(w.ref, op.section);
    var s := Seeded(db, op, w);
    var p := Place(s, k, Payload(op), MetaFor(op, w));
    var u := WriteOp(db, op, w).value;
    assert u == Credit(p, op, w);
    hide Place, Placed, Remember, Answered, WriteOp, Seeded, Credit, PrimariesKept, Formats;
    SeededIsFaithful(db, op, w);
    SeededKeepsAnswers(db, op, w);
    CreditKeepsAnswers(p, op, w);
    assert Formats(s) by { SeededKeepsFormats(db, op, w); }
    var rowid := PlaceIsPlaced(s, k, Payload(op), MetaFor(op, w));
    PlacedSameElsewhere(s, p, k, Payload(op), MetaFor(op, w), rowid);
    if !Primary(op.section) {
      PlacedKeepsPrimaries(db, s, p, u, k, Payload(op), MetaFor(op, w), rowid);
    }
  }

  lemma SeededKeepsFormats(db: Db, op: Op, w: Writer)
    requires Formats(db)
    ensures Formats(Seeded(db, op, w))
  {
    hide Answered, Remember;
    SeededIsFaithful(db, op, w);
  }

  lemma CreditKeepsAnswers(p: Db, op: Op, w: Writer)
    ensures AnswersOnly(p, Credit(p, op, w))
    ensures forall r | r in p.answers :: r in Credit(p, op, w).answers
  {
  }

  lemma PlacedKeepsPrimaries(db: Db, s: Db, p: Db, u: Db, k: Key, body: Option<Body>, meta: Meta, rowid: int)
    requires AnswersOnly(db, s) && Placed(s, p, k, body, meta, rowid) && Formats(s) && AnswersOnly(p, u)
    requires !Primary(k.section)
    ensures PrimariesKept(db, u, RefOf(k))
  {
    var ref := RefOf(k);
    PlacedSameRow(s, p, k, body, meta, rowid, KeyOf(ref, Items));
    PlacedSameRow(s, p, k, body, meta, rowid, KeyOf(ref, Closed));
    hide Placed, Formats;
  }

  lemma SeededKeepsAnswers(db: Db, op: Op, w: Writer)
    ensures forall r | r in db.answers :: r in Seeded(db, op, w).answers
  {
  }

  lemma PlacedSameRow(db: Db, u: Db, k: Key, body: Option<Body>, meta: Meta, rowid: int, j: Key)
    requires Placed(db, u, k, body, meta, rowid) && Formats(db) && j != k
    ensures SameRow(db, u, j)
  {
  }

  lemma {:induction false} WriteAllSecuresAnswer(db: Db, ops: seq<Op>, w: Writer)
    requires Inv(db) && WriterFits(db, w) && (forall op | op in ops :: OpFits(op)) && WriteAll(db, ops, w).Some?
    requires Answered(db, w.ref)
    ensures var u := WriteAll(db, ops, w).value;
            w.ref in u.answers || PrimariesKept(db, u, w.ref)
    ensures w.ref in db.answers ==> w.ref in WriteAll(db, ops, w).value.answers
    decreases |ops|
  {
    hide Inv, TupleRevision, WriteOp, OpFits, WriterFits, Answered, Within;
    if ops != [] {
      var v := WriteOp(db, ops[0], w).value;
      assert OpFits(ops[0]);
      InvIsFormats(db);
      WriteKeepsInv(db, ops[0], w);
      WriteMoves(db, ops[0], w);
      WriteRemembers(db, ops[0], w);
      WithinKeepsWriter(db, v, w);
      WriteSecuresAnswer(db, ops[0], w);
      WriteAllSecuresAnswer(v, ops[1..], w);
    }
  }

  lemma {:induction false} WriteAllReaches(db: Db, ops: seq<Op>, w: Writer)
    requires Inv(db) && WriterFits(db, w) && (forall op | op in ops :: OpFits(op)) && WriteAll(db, ops, w).Some?
    requires ops != [] || TupleRevision(db, w.ref) == w.revision
    ensures TupleRevision(WriteAll(db, ops, w).value, w.ref) == w.revision
    decreases |ops|
  {
    if ops != [] {
      var v := WriteOp(db, ops[0], w).value;
      var k := KeyOf(w.ref, ops[0].section);
      assert OpFits(ops[0]);
      InvIsFormats(db);
      WriteReaches(db, ops[0], w);
      hide Inv, WriteOp, OpFits, TupleRevision, Within, FeedMoves;
      WriteKeepsInv(db, ops[0], w);
      WriteMoves(db, ops[0], w);
      WithinKeepsWriter(db, v, w);
      WriteAllReaches(v, ops[1..], w);
    }
  }

  lemma PlacedReaches(db: Db, u: Db, k: Key, body: Option<Body>, meta: Meta, rowid: int)
    requires Placed(db, u, k, body, meta, rowid) && Formats(db) && !k.section.Commits?
    requires meta.revision >= TupleRevision(db, RefOf(k))
    ensures TupleRevision(u, RefOf(k)) == meta.revision
  {
    var ref := RefOf(k);
    assert k == KeyOf(ref, k.section);
    hide Placed, TupleRevision, Revision, Formats;
    forall x: Section | !x.Commits? ensures Revision(u, KeyOf(ref, x)) <= meta.revision {
      PlacedRevision(db, u, k, body, meta, rowid, KeyOf(ref, x));
    }
    PlacedRevision(db, u, k, body, meta, rowid, k);
  }

  lemma WriteReaches(db: Db, op: Op, w: Writer)
    requires Formats(db) && WriterFits(db, w) && OpFits(op) && WriteOp(db, op, w).Some?
    ensures TupleRevision(WriteOp(db, op, w).value, w.ref) == w.revision
  {
    var k := KeyOf(w.ref, op.section);
    var s := Seeded(db, op, w);
    var p := Place(s, k, Payload(op), MetaFor(op, w));
    var u := WriteOp(db, op, w).value;
    assert u == Credit(p, op, w);
    assert w.revision >= TupleRevision(db, w.ref);
    assert MetaFor(op, w).revision == w.revision;
    hide Place, Placed, Remember, Answered, WriteOp, Seeded, TupleRevision, Revision, AnswersOnly, Credit, MetaFor, OpFits,
      Formats, WriterFits;
    SeededIsFaithful(db, op, w);
    SeededKeepsFormats(db, op, w);
    CreditKeepsAnswers(p, op, w);
    AnswersOnlyRevisions(p, u);
    AnswersOnlyRevisions(db, s);
    var rowid := PlaceIsPlaced(s, k, Payload(op), MetaFor(op, w));
    OpFitsSection(op);
    PlacedReaches(s, p, k, Payload(op), MetaFor(op, w), rowid);
  }

  lemma OpFitsSection(op: Op)
    requires OpFits(op)
    ensures !op.section.Commits?
  {
  }

  /** A published receipt for the revision its own transaction just wrote. */
  lemma RecordPublishedKeeps(o: Db, x: Db, key: ReceiptKey, r: Receipt, ref: ItemRef)
    requires Inv(o) && Inv(x) && key !in x.receipts && x.receipts == o.receipts
    requires r.state.Published? && r.commit.Some? && OwnerRef(r.target) == ref
    requires r.commit.value > TupleRevision(o, ref) && TupleRevision(x, ref) == r.commit.value
    requires Remembers(o, x)
    requires Answered(o, ref) ==> ref in x.answers || PrimariesKept(o, x, ref)
    ensures Inv(Recorded(x, key, r)) && Remembers(o, Recorded(x, key, r))
  {
    hide TupleRevision, Inv, ReceiptsFit, ReceiptsUnique, PrimariesKept, Answered, FeedMoves, ViewRaises, Shrinks, Owned;
    var y := Recorded(x, key, r);
    InvIsReceipts(o);
    InvIsReceipts(x);
    RecordPublishedFits(o, x, key, r, ref);
    SameRecordsKeepInv(x, y);
    forall q | Answered(o, q) ensures Answered(y, q) {
      RecordPublishedAnswers(o, x, key, r, ref, q);
    }
  }

  lemma RecordPublishedFits(o: Db, x: Db, key: ReceiptKey, r: Receipt, ref: ItemRef)
    requires ReceiptsFit(o) && ReceiptsFit(x) && ReceiptsUnique(x) && key !in x.receipts && x.receipts == o.receipts
    requires r.state.Published? && r.commit.Some? && OwnerRef(r.target) == ref
    requires r.commit.value > TupleRevision(o, ref) && TupleRevision(x, ref) == r.commit.value
    ensures ReceiptsFit(Recorded(x, key, r)) && ReceiptsUnique(Recorded(x, key, r))
  {
    SameRecordsRevisions(x, Recorded(x, key, r));
    hide TupleRevision, FeedMoves, ViewRaises, Shrinks;
  }

  lemma RecordPublishedAnswers(o: Db, x: Db, key: ReceiptKey, r: Receipt, ref: ItemRef, q: ItemRef)
    requires Owned(x) && key !in x.receipts
    requires r.commit.Some? && OwnerRef(r.target) == ref && r.commit.value > TupleRevision(o, ref)
    requires Answered(o, q) && Answered(x, q)
    requires Answered(o, ref) ==> ref in x.answers || PrimariesKept(o, x, ref)
    ensures Answered(Recorded(x, key, r), q)
  {
    hide TupleRevision, EvidenceAt, Owned, PrimariesKept, Wrote;
    if q !in x.answers {
      RecordedRowIsForeign(o, x, r, ref, q, Items);
      RecordedRowIsForeign(o, x, r, ref, q, Closed);
      RecordForeignEvidence(x, key, r, KeyOf(q, Items));
      RecordForeignEvidence(x, key, r, KeyOf(q, Closed));
    }
  }

  lemma RecordedRowIsForeign(o: Db, x: Db, r: Receipt, ref: ItemRef, q: ItemRef, s: Section)
    requires Owned(x) && OwnerRef(r.target) == ref && r.commit.Some? && r.commit.value > TupleRevision(o, ref)
    requires Primary(s) && (q == ref ==> PrimariesKept(o, x, ref))
    ensures Stored(x, KeyOf(q, s)) ==> !Wrote(r, MetaOf(x, KeyOf(q, s)))
  {
    hide TupleRevision;
    var k := KeyOf(q, s);
    if Stored(x, k) && q == ref {
      assert SameRow(o, x, k);
      assert Revision(o, k) <= TupleRevision(o, ref);
    }
  }

  // ----- accept -----

  lemma AddDeleteFits(ops: seq<Op>, s: Section)
    requires !s.Commits? && (forall op | op in ops :: OpFits(op))
    ensures forall op | op in AddDelete(ops, s) :: OpFits(op)
    ensures |AddDelete(ops, s)| >= |ops|
  {
  }

  lemma {:induction false} PrimaryWritesAreWrites(ops: seq<Op>)
    ensures forall op | op in PrimaryWrites(ops) :: op in ops && Writes(op)
  {
    if ops != [] {
      PrimaryWritesAreWrites(ops[1..]);
    }
  }

  lemma TupleOpsFit(plan: Plan)
    requires ValidPlan(plan) && TupleOps(plan.ops).Some?
    ensures TupleOps(plan.ops).value != [] && forall op | op in TupleOps(plan.ops).value :: OpFits(op)
  {
    var ops := plan.ops;
    assert forall op | op in ops :: OpFits(op);
    var writes := PrimaryWrites(ops);
    PrimaryWritesAreWrites(ops);
    hide OpFits, AddDelete, PrimaryWrites;
    if |writes| == 1 {
      var a := if writes[0].section.Items? then Closed else Items;
      AddDeleteFits(ops, a);
      AddDeleteFits(AddDelete(ops, a), Plans);
      AddDeleteFits(AddDelete(ops, a), Packets);
      AddDeleteFits(AddDelete(AddDelete(ops, a), Plans), Packets);
    } else {
      AddDeleteFits(ops, Plans);
      AddDeleteFits(AddDelete(ops, Plans), Packets);
    }
  }

  ghost function PublishRevision(o: Db, plan: Plan): int {
    Max(plan.revision, TupleRevision(o, plan.Ref()) + 1)
  }

  lemma PublishWriterFits(o: Db, plan: Plan, now: int, prepared: set<Digest>)
    requires ValidPlan(plan) && prepared <= o.bucket
    ensures WriterFits(o, PlanWriter(plan, now, PublishRevision(o, plan), prepared))
    ensures PublishRevision(o, plan) > TupleRevision(o, plan.Ref())
  {
    hide TupleRevision;
  }

  lemma PublishKeeps(o: Db, plan: Plan, now: int, prepared: set<Digest>, x: Db)
    requires Inv(o) && ValidPlan(plan) && prepared <= o.bucket && TupleOps(plan.ops).Some?
    requires ReceiptKey(plan.fence, plan.revision) !in o.receipts
    requires WriteAll(o, TupleOps(plan.ops).value, PlanWriter(plan, now, PublishRevision(o, plan), prepared)) == Some(x)
    ensures var y := Recorded(x, ReceiptKey(plan.fence, plan.revision),
                              ReceiptOf(plan, Published, now, Some(PublishRevision(o, plan))));
            Inv(y) && Evolves(o, y)
  {
    var ops := TupleOps(plan.ops).value;
    var ref := plan.Ref();
    var revision := PublishRevision(o, plan);
    var w := PlanWriter(plan, now, revision, prepared);
    TupleOpsFit(plan);
    PublishWriterFits(o, plan, now, prepared);
    var key := ReceiptKey(plan.fence, plan.revision);
    var r := ReceiptOf(plan, Published, now, Some(revision));
    var y := Recorded(x, key, r);
    assert w.ref == ref && w.revision == revision && OwnerRef(r.target) == ref && r.commit == Some(revision);
    hide Inv, TupleRevision, WriteAll, OpFits, Answered, Within, FeedMoves, ViewRaises, Shrinks, Remembers, TupleOps,
      PrimariesKept, ReceiptOf, PlanWriter, PublishRevision, WriterFits, ValidPlan, Recorded;
    WriteAllKeeps(o, ops, w);
    WriteAllReaches(o, ops, w);
    if Answered(o, ref) {
      WriteAllSecuresAnswer(o, ops, w);
    }
    WithinRaises(o, x, ref, revision);
    assert r.state.Published? by { PublishedReceipt(plan, now, revision); }
    RecordPublishedKeeps(o, x, key, r, ref);
    RecordedMoves(o, x, key, r);
  }

  lemma PublishedReceipt(plan: Plan, now: int, revision: int)
    ensures ReceiptOf(plan, Published, now, Some(revision)).state.Published?
  {
  }

  lemma RecordedMoves(o: Db, x: Db, key: ReceiptKey, r: Receipt)
    requires Inv(o) && x.bucket == o.bucket && FeedMoves(o, x) && ViewRaises(o, x) && Shrinks(o, x)
    requires Remembers(o, Recorded(x, key, r))
    ensures Evolves(o, Recorded(x, key, r))
  {
    var y := Recorded(x, key, r);
    SameRecordsMove(x, y);
    InvIsFormats(o);
    hide Inv, TupleRevision, FeedMoves, ViewRaises, Remembers, WellKeyed;
    FeedMovesTransitive(o, x, y);
    ViewRaisesTransitive(o, x, y);
  }

  /** An acceptance ends where it started, after pruning, or with the open part done. */
  lemma AcceptShape(db: Db, plan: Plan, now: int, prepared: set<Digest>)
    ensures var u := AcceptPlan(db, plan, now, prepared).db;
            var p := Prune(db, now);
            var key := ReceiptKey(plan.fence, plan.revision);
            || u == db
            || u == p
            || (TupleOps(plan.ops).Some? && (key in p.receipts ==> !p.receipts[key].state.Published?)
                && u == AcceptOpen(db, Drop(p, {key}), plan, now, prepared))
  {
    hide Prune, WriteAll, TupleOps, TupleRevision, PlanWriter, StoredOps, SamePayload, ReceiptOf, NewerRetained, Drop;
  }

  lemma AcceptKeeps(db: Db, plan: Plan, now: int, prepared: set<Digest>)
    requires Inv(db) && ValidPlan(plan) && prepared <= db.bucket
    ensures Inv(AcceptPlan(db, plan, now, prepared).db) && Evolves(db, AcceptPlan(db, plan, now, prepared).db)
  {
    hide Inv, Evolves, Prune, TupleOps, ValidPlan, AcceptPlan, AcceptOpen, WellKeyed, RowidsDistinct, Formats, FeedOrder;
    var p := Prune(db, now);
    var key := ReceiptKey(plan.fence, plan.revision);
    AcceptShape(db, plan, now, prepared);
    EvolvesItself(db);
    PruneKeeps(db, now);
    var u := AcceptPlan(db, plan, now, prepared).db;
    if u != db && u != p {
      var o := Drop(p, {key});
      DropUnpublishedKeeps(p, key);
      InvIsFormats(db);
      EvolvesTransitive(db, p, o);
      assert prepared <= o.bucket by { PruneTouchesOnlyReceipts(db, now); }
      AcceptOpenKeeps(db, o, plan, now, prepared);
    }
  }

  /** The part of an acceptance after pruning and dropping an unfinished receipt. */
  ghost function AcceptOpen(db: Db, o: Db, plan: Plan, now: int, prepared: set<Digest>): Db
    requires TupleOps(plan.ops).Some?
  {
    var key := ReceiptKey(plan.fence, plan.revision);
    if NewerRetained(o, plan.fence, plan.revision) then Recorded(o, key, ReceiptOf(plan, Superseded, now, None))
    else
      var x := WriteAll(o, TupleOps(plan.ops).value, PlanWriter(plan, now, PublishRevision(o, plan), prepared));
      if x.None? then db else Recorded(x.value, key, ReceiptOf(plan, Published, now, Some(PublishRevision(o, plan))))
  }

  lemma AcceptOpenKeeps(db: Db, o: Db, plan: Plan, now: int, prepared: set<Digest>)
    requires Inv(db) && Inv(o) && Evolves(db, o) && ValidPlan(plan) && prepared <= o.bucket && TupleOps(plan.ops).Some?
    requires ReceiptKey(plan.fence, plan.revision) !in o.receipts
    ensures var y := AcceptOpen(db, o, plan, now, prepared);
            Inv(y) && Evolves(db, y)
  {
    var key := ReceiptKey(plan.fence, plan.revision);
    assert !ReceiptOf(plan, Superseded, now, None).state.Published?;
    hide Inv, Evolves, WriteAll, TupleOps, PlanWriter, ValidPlan, ReceiptOf, NewerRetained, Recorded, PublishRevision;
    EvolvesItself(db);
    InvIsFormats(db);
    if NewerRetained(o, plan.fence, plan.revision) {
      var r := ReceiptOf(plan, Superseded, now, None);
      RecordUnpublishedKeeps(o, key, r);
      EvolvesTransitive(db, o, Recorded(o, key, r));
    } else {
      var x := WriteAll(o, TupleOps(plan.ops).value, PlanWriter(plan, now, PublishRevision(o, plan), prepared));
      if x.Some? {
        PublishKeeps(o, plan, now, prepared, x.value);
        EvolvesTransitive(db, o, AcceptOpen(db, o, plan, now, prepared));
      }
    }
  }

  // ----- tuple compare-and-swap -----

  lemma DeliveriesOnlyKeeps(a: Db, b: Db)
    requires Inv(a) && b == a.(deliveries := b.deliveries)
    ensures Inv(b) && Evolves(a, b)
  {
    hide TupleRevision, Inv, ReceiptsUnique, ReceiptsFit, FeedMoves, ViewRaises, Shrinks, EvidenceAt, Revision;
    InvIsReceipts(a);
    SameRecordsRevisions(a, b);
    SameReceiptsKeepUnique(a, b);
    RaisedTuplesKeepFit(a, b);
    SameRecordsKeepInv(a, b);
    SameRecordsMove(a, b);
    forall ref | Answered(a, ref) ensures Answered(b, ref) {
      SameEvidence(a, b, KeyOf(ref, Items));
      SameEvidence(a, b, KeyOf(ref, Closed));
    }
  }

  ghost function MoveWriter(p: Db, m: Mutation, now: int, prepared: set<Digest>): Writer {
    Writer(m.Ref(), Reconciler(m.repo, m.id), 1, now, TupleRevision(p, m.Ref()) + 1, prepared, None)
  }

  lemma MoveWriterFits(p: Db, m: Mutation, now: int, prepared: set<Digest>)
    requires Inv(p) && prepared <= p.bucket
    ensures WriterFits(p, MoveWriter(p, m, now, prepared))
    ensures MoveWriter(p, m, now, prepared).revision > TupleRevision(p, m.Ref())
  {
    InvTupleRevision(p, m.Ref());
    hide TupleRevision, Inv;
  }

  lemma MoveWriteKeeps(p: Db, m: Mutation, now: int, prepared: set<Digest>, x: Db)
    requires Inv(p) && ValidMutation(m) && prepared <= p.bucket
    requires WriteAll(p, m.ops, MoveWriter(p, m, now, prepared)) == Some(x)
    ensures Inv(x) && Evolves(p, x)
  {
    assert forall op | op in m.ops :: OpFits(op);
    var w := MoveWriter(p, m, now, prepared);
    MoveWriterFits(p, m, now, prepared);
    assert w.ref == m.Ref();
    hide Inv, WriteAll, TupleRevision, OpFits, WriterFits, MoveWriter, FeedMoves, ViewRaises, Shrinks, Remembers, Within, ValidMutation;
    WriteAllKeeps(p, m.ops, w);
    WithinRaises(p, x, m.Ref(), w.revision);
  }

  lemma MoveKeeps(db: Db, m: Mutation, now: int, prepared: set<Digest>)
    requires Inv(db) && ValidMutation(m) && prepared <= db.bucket
    ensures Inv(MoveTuple(db, m, now, prepared).db) && Evolves(db, MoveTuple(db, m, now, prepared).db)
  {
    hide Inv, Evolves, WriteAll, TupleRevision, StoredOps, PruneDeliveries, Unchanged, ValidMutation;
    var p := PruneDeliveries(db, now);
    EvolvesItself(db);
    PrunedDeliveries(db, now);
    DeliveriesOnlyKeeps(db, p);
    InvIsFormats(db);
    var u := MoveTuple(db, m, now, prepared).db;
    if u != db && u != p {
      var x := WriteAll(p, m.ops, MoveWriter(p, m, now, prepared)).value;
      MoveWriteKeeps(p, m, now, prepared, x);
      DeliveriesOnlyKeeps(x, u);
      InvIsFormats(p);
      EvolvesTransitive(p, x, u);
      EvolvesTransitive(db, p, u);
    }
  }

  lemma PrunedDeliveries(db: Db, now: int)
    ensures PruneDeliveries(db, now) == db.(deliveries := PruneDeliveries(db, now).deliveries)
  {
  }

  lemma InvTupleRevision(db: Db, ref: ItemRef)
    requires Inv(db)
    ensures TupleRevision(db, ref) >= 0
  {
  }
}

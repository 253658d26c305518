/** What no transaction of the canonical store ever undoes: fresh export revisions, rising tuple
    revisions, a shrinking version 1 table, a growing bucket, and remembered answers. */
module CanonicalEvolution {
  import opened Ordering
  import opened CanonicalTables
  import opened CanonicalTransactions
  import opened CanonicalInvariant

  /** Every export row is the old one, or carries a store revision never allocated before. */
  ghost predicate FeedMoves(a: Db, b: Db) {
    && a.exportRevision <= b.exportRevision
    && (forall k | k in a.exports :: k in b.exports)
    && (forall k | k in b.exports :: (k in a.exports && b.exports[k] == a.exports[k]) || b.exports[k].storeRevision > a.exportRevision)
  }

  ghost predicate SameVersion(a: Db, b: Db, k: Key)
    requires Stored(b, k)
  {
    Stored(a, k) && MetaOf(b, k).digest == MetaOf(a, k).digest && MetaOf(b, k).revision == MetaOf(a, k).revision
  }

  /** Every row of the read view is the old version, or lies strictly above everything its tuple
      had reached. No row disappears. */
  ghost predicate ViewRaises(a: Db, b: Db) {
    && (forall k | Stored(a, k) :: Stored(b, k))
    && (forall k | Stored(b, k) :: SameVersion(a, b, k) || MetaOf(b, k).revision > TupleRevision(a, RefOf(k)))
  }

  /** Once version 2 is active it stays, and the version 1 tables only lose rows. */
  ghost predicate Shrinks(a: Db, b: Db) {
    a.format.V2? ==>
      && b.format.V2?
      && (forall k | k in b.v1 :: k in a.v1 && b.v1[k].rowid == a.v1[k].rowid)
      && (forall k | k in b.chunks :: k in a.chunks)
  }

  ghost predicate Remembers(a: Db, b: Db) {
    forall ref | Answered(a, ref) :: Answered(b, ref)
  }

  ghost predicate Evolves(a: Db, b: Db) {
    a.bucket <= b.bucket && FeedMoves(a, b) && ViewRaises(a, b) && Shrinks(a, b) && Remembers(a, b)
  }

  lemma FeedMovesTransitive(a: Db, b: Db, c: Db)
    requires FeedMoves(a, b) && FeedMoves(b, c)
    ensures FeedMoves(a, c)
  {
  }

  lemma RaisedTuple(a: Db, b: Db, ref: ItemRef)
    requires ViewRaises(a, b) && WellKeyed(a)
    ensures TupleRevision(b, ref) >= TupleRevision(a, ref)
  {
    hide TupleRevision;
    forall s: Section | !s.Commits? ensures Revision(a, KeyOf(ref, s)) <= Revision(b, KeyOf(ref, s)) {
      var k := KeyOf(ref, s);
      if Stored(a, k) {
        assert Stored(b, k);
        assert Revision(a, k) <= TupleRevision(a, RefOf(k));
      } else if Stored(b, k) {
        assert MetaOf(b, k).revision > TupleRevision(a, RefOf(k));
        assert Revision(a, k) <= TupleRevision(a, RefOf(k));
      }
    }
  }

  lemma ViewRaisesTransitive(a: Db, b: Db, c: Db)
    requires ViewRaises(a, b) && ViewRaises(b, c) && WellKeyed(a)
    ensures ViewRaises(a, c)
  {
    hide TupleRevision;
    forall k | Stored(c, k) ensures SameVersion(a, c, k) || MetaOf(c, k).revision > TupleRevision(a, RefOf(k)) {
      assert SameVersion(b, c, k) || MetaOf(c, k).revision > TupleRevision(b, RefOf(k));
      if !SameVersion(b, c, k) {
        RaisedTuple(a, b, RefOf(k));
      } else {
        assert SameVersion(a, b, k) || MetaOf(b, k).revision > TupleRevision(a, RefOf(k));
      }
    }
  }

  lemma EvolvesTransitive(a: Db, b: Db, c: Db)
    requires Evolves(a, b) && Evolves(b, c) && WellKeyed(a)
    ensures Evolves(a, c)
  {
    hide FeedMoves, ViewRaises, WellKeyed, Answered;
    FeedMovesTransitive(a, b, c);
    ViewRaisesTransitive(a, b, c);
  }

  lemma EvolvesItself(a: Db)
    ensures Evolves(a, a)
  {
    hide TupleRevision, Answered;
  }

  // ----- changes beside the records -----

  /** The two states differ in receipts, deliveries and answers at most. */
  ghost predicate SameRecords(a: Db, b: Db) {
    b == a.(receipts := b.receipts, deliveries := b.deliveries, answers := b.answers)
  }

  lemma SameRecordsRevisions(a: Db, b: Db)
    requires SameRecords(a, b)
    ensures forall k :: Revision(b, k) == Revision(a, k) && Stored(a, k) == Stored(b, k) && V1Body(b, k) == V1Body(a, k)
    ensures forall ref :: TupleRevision(b, ref) == TupleRevision(a, ref)
  {
  }

  lemma SameRecordsMove(a: Db, b: Db)
    requires SameRecords(a, b)
    ensures a.bucket <= b.bucket && FeedMoves(a, b) && ViewRaises(a, b) && Shrinks(a, b)
  {
    hide TupleRevision;
  }

  ghost predicate SameStore(a: Db, b: Db) {
    && b.v1 == a.v1 && b.chunks == a.chunks && b.v2 == a.v2 && b.bucket == a.bucket
    && b.exports == a.exports && b.exportRevision == a.exportRevision && b.imports == a.imports
  }

  lemma SameStoreRows(a: Db, b: Db)
    requires WellKeyed(a) && RowidsDistinct(a.v1) && V2Bodies(a) && SameStore(a, b)
    ensures WellKeyed(b) && RowidsDistinct(b.v1) && V2Bodies(b)
  {
  }

  lemma SameStoreKeepsInv(a: Db, b: Db)
    requires Inv(a) && SameStore(a, b)
    requires Formats(b) && Frontier(b) && ReceiptsFit(b) && ReceiptsUnique(b)
    ensures Inv(b)
  {
    hide TupleRevision, RowidsDistinct, FeedOrder, ReceiptsUnique, ReceiptsFit, Frontier, V1Bodies, V2Bodies, Owned, Sourced,
      Agreement, WellKeyed, Formats;
    SameFeedKeepsOrder(a, b);
    SameBodies(a, b);
    SameSources(a, b);
    SameStoreRows(a, b);
  }

  lemma SameRecordsKeepInv(a: Db, b: Db)
    requires Inv(a) && SameRecords(a, b) && ReceiptsFit(b) && ReceiptsUnique(b)
    ensures Inv(b)
  {
    assert Formats(b);
    hide TupleRevision, RowidsDistinct, FeedOrder, ReceiptsUnique, ReceiptsFit, Frontier, V1Bodies, V2Bodies, Owned, Sourced,
      Agreement, WellKeyed, Formats;
    SameFrontier(a, b);
    SameStoreKeepsInv(a, b);
  }

  lemma SameFeedKeepsOrder(a: Db, b: Db)
    requires FeedOrder(a) && b.exports == a.exports && b.exportRevision == a.exportRevision
    ensures FeedOrder(b)
  {
  }

  lemma SameFrontier(a: Db, b: Db)
    requires Frontier(a) && b.v1 == a.v1 && b.chunks == a.chunks && b.tiering == a.tiering
    ensures Frontier(b)
  {
  }

  lemma SameBodies(a: Db, b: Db)
    requires V1Bodies(a) && Owned(a) && b.v1 == a.v1 && b.chunks == a.chunks && b.v2 == a.v2
    ensures V1Bodies(b) && Owned(b)
  {
    forall k | k in b.v1 ensures V1Body(b, k) == V1Body(a, k) {}
  }

  lemma SameSources(a: Db, b: Db)
    requires Sourced(a) && Agreement(a) && b.v1 == a.v1 && b.v2 == a.v2 && b.exports == a.exports && b.imports == a.imports
    ensures Sourced(b) && Agreement(b)
  {
  }

  // ----- changes to the answer table alone -----

  ghost predicate AnswersOnly(a: Db, b: Db) {
    b == a.(answers := b.answers)
  }

  lemma AnswersOnlyRevisions(a: Db, b: Db)
    requires AnswersOnly(a, b)
    ensures forall k :: Revision(b, k) == Revision(a, k) && Stored(a, k) == Stored(b, k) && V1Body(b, k) == V1Body(a, k)
    ensures forall ref :: TupleRevision(b, ref) == TupleRevision(a, ref)
  {
    hide TupleRevision, Revision;
    SameRecordsRevisions(a, b);
  }

  lemma AnswersOnlyKeepsInv(a: Db, b: Db)
    requires Inv(a) && AnswersOnly(a, b)
    ensures Inv(b)
  {
    hide TupleRevision, RowidsDistinct, FeedOrder, ReceiptsUnique, ReceiptsFit, Frontier, V1Bodies, V2Bodies, Owned, Sourced,
      Agreement, WellKeyed, Formats, Revision;
    SameReceiptsKeepUnique(a, b);
    SameRecordsRevisions(a, b);
    RaisedTuplesKeepFit(a, b);
    SameRecordsKeepInv(a, b);
  }

  lemma SameEvidence(a: Db, b: Db, k: Key)
    requires b.v1 == a.v1 && b.chunks == a.chunks && b.v2 == a.v2 && b.exports == a.exports
    requires b.imports == a.imports && b.receipts == a.receipts && b.bucket == a.bucket
    ensures EvidenceAt(b, k) == EvidenceAt(a, k)
  {
    if Stored(a, k) {
      assert Provenance(b, k) == Provenance(a, k);
    }
  }

  lemma RememberIsFaithful(db: Db, ref: ItemRef)
    ensures AnswersOnly(db, Remember(db, ref))
    ensures Answered(db, ref) ==> ref in Remember(db, ref).answers && Remember(db, ref).answers[ref]
    ensures forall r :: Answered(Remember(db, ref), r) == Answered(db, r)
  {
    hide EvidenceAt;
    var u := Remember(db, ref);
    forall r ensures Answered(u, r) == Answered(db, r) {
      SameEvidence(db, u, KeyOf(r, Items));
      SameEvidence(db, u, KeyOf(r, Closed));
    }
  }

  lemma RememberEvolves(db: Db, ref: ItemRef)
    ensures Evolves(db, Remember(db, ref))
  {
    hide Remember, Answered, FeedMoves, ViewRaises, Shrinks;
    RememberIsFaithful(db, ref);
    SameRecordsMove(db, Remember(db, ref));
  }

  // ----- one write inside a transaction -----

  /** Between two states of one transaction: every row is the old version or was written to the
      transaction's own tuple at its own revision. */
  ghost predicate Within(a: Db, b: Db, ref: ItemRef, revision: int) {
    && (forall k | Stored(a, k) :: Stored(b, k))
    && (forall k | Stored(b, k) :: SameVersion(a, b, k) || (RefOf(k) == ref && MetaOf(b, k).revision == revision))
  }

  lemma WithinTransitive(a: Db, b: Db, c: Db, ref: ItemRef, revision: int)
    requires Within(a, b, ref, revision) && Within(b, c, ref, revision)
    ensures Within(a, c, ref, revision)
  {
    forall k | Stored(c, k) ensures SameVersion(a, c, k) || (RefOf(k) == ref && MetaOf(c, k).revision == revision) {
      assert SameVersion(b, c, k) || (RefOf(k) == ref && MetaOf(c, k).revision == revision);
    }
  }

  lemma WithinRaises(a: Db, b: Db, ref: ItemRef, revision: int)
    requires Within(a, b, ref, revision) && revision > TupleRevision(a, ref)
    ensures ViewRaises(a, b)
  {
    hide TupleRevision;
  }

  lemma PlacedMoves(db: Db, u: Db, k: Key, body: Option<Body>, meta: Meta, rowid: int)
    requires Placed(db, u, k, body, meta, rowid) && Formats(db)
    ensures FeedMoves(db, u) && Shrinks(db, u) && Within(db, u, RefOf(k), meta.revision)
  {
  }

  lemma PlacedEvidence(db: Db, u: Db, k: Key, body: Option<Body>, meta: Meta, rowid: int, j: Key)
    requires Placed(db, u, k, body, meta, rowid) && Formats(db) && j != k
    ensures EvidenceAt(u, j) == EvidenceAt(db, j)
  {
    PlacedRowElsewhere(db, u, k, body, meta, rowid, j);
    hide Placed, Formats, ExportBody, Wrote;
    if Stored(db, j) {
      assert Provenance(u, j) == Provenance(db, j);
    }
  }

  lemma PlacedRowElsewhere(db: Db, u: Db, k: Key, body: Option<Body>, meta: Meta, rowid: int, j: Key)
    requires Placed(db, u, k, body, meta, rowid) && Formats(db) && j != k
    ensures u.receipts == db.receipts
    ensures (j in u.v1 <==> j in db.v1) && (j in u.v2 <==> j in db.v2) && (j in u.exports <==> j in db.exports)
    ensures Stored(db, j) ==> MetaOf(u, j) == MetaOf(db, j)
    ensures j in db.exports ==> u.exports[j] == db.exports[j]
    ensures j in db.exports && db.exports[j].digest.Some? ==> ExportBody(u, j) == ExportBody(db, j)
  {
  }

  lemma PlacedAnswers(db: Db, u: Db, k: Key, body: Option<Body>, meta: Meta, rowid: int, ref: ItemRef)
    requires Placed(db, u, k, body, meta, rowid) && Formats(db)
    requires Answered(db, ref)
    requires Primary(k.section) && ref == RefOf(k) ==> ref in db.answers
    ensures Answered(u, ref)
  {
    hide EvidenceAt;
    assert u.answers == db.answers;
    if ref !in db.answers {
      hide Placed;
      assert KeyOf(ref, Items) != k && KeyOf(ref, Closed) != k;
      PlacedEvidence(db, u, k, body, meta, rowid, KeyOf(ref, Items));
      PlacedEvidence(db, u, k, body, meta, rowid, KeyOf(ref, Closed));
    }
  }

  /** What a writer must bring to a write; `prepared` was filled by storing and re-reading bodies. */
  ghost predicate WriterFits(db: Db, w: Writer) {
    && w.revision >= 1
    && w.revision >= TupleRevision(db, w.ref)
    && OwnerRef(w.owner) == w.ref
    && w.prepared <= db.bucket
  }

  ghost predicate OpFits(op: Op) {
    && !op.section.Commits?
    && (op.content.Some? ==> Bytes(op.content.value) <= MAX_FILE_BYTES)
    && (op.stripped.Some? ==> Bytes(op.stripped.value) <= MAX_FILE_BYTES)
  }

  ghost function Seeded(db: Db, op: Op, w: Writer): Db {
    if Primary(op.section) then Remember(db, w.ref) else db
  }

  ghost function MetaFor(op: Op, w: Writer): Meta {
    Meta(DigestOf(Payload(op)), w.revision, w.owner, w.generation, w.now)
  }

  lemma SeededIsFaithful(db: Db, op: Op, w: Writer)
    ensures var s := Seeded(db, op, w);
            && AnswersOnly(db, s)
            && (Primary(op.section) && Answered(db, w.ref) ==> w.ref in s.answers && s.answers[w.ref])
            && (forall r :: Answered(s, r) == Answered(db, r))
  {
    hide Answered, Remember;
    RememberIsFaithful(db, w.ref);
  }

  lemma WriteKeepsInv(db: Db, op: Op, w: Writer)
    requires Inv(db) && WriterFits(db, w) && OpFits(op) && WriteOp(db, op, w).Some?
    ensures Inv(WriteOp(db, op, w).value)
  {
    hide Inv, TupleRevision, Place, Remember, Answered;
    var s := Seeded(db, op, w);
    SeededIsFaithful(db, op, w);
    AnswersOnlyKeepsInv(db, s);
    AnswersOnlyRevisions(db, s);
    var k := KeyOf(w.ref, op.section);
    PlaceKeepsInv(s, k, Payload(op), MetaFor(op, w));
    AnswersOnlyKeepsInv(Place(s, k, Payload(op), MetaFor(op, w)), WriteOp(db, op, w).value);
  }

  lemma InvIsFormats(db: Db)
    requires Inv(db)
    ensures Formats(db) && WellKeyed(db) && RowidsDistinct(db.v1) && FeedOrder(db)
  {
  }

  lemma AnswersOnlyStored(a: Db, b: Db, k: Key)
    requires AnswersOnly(a, b) && Stored(a, k)
    ensures Stored(b, k) && MetaOf(b, k) == MetaOf(a, k)
  {
  }

  lemma WriteMoves(db: Db, op: Op, w: Writer)
    requires Formats(db) && WriteOp(db, op, w).Some?
    ensures var u := WriteOp(db, op, w).value;
            FeedMoves(db, u) && Shrinks(db, u) && Within(db, u, w.ref, w.revision) && u.bucket == db.bucket
            && u.receipts == db.receipts && u.deliveries == db.deliveries && u.tiering == db.tiering && u.format == db.format
  {
    var s := Seeded(db, op, w);
    var k := KeyOf(w.ref, op.section);
    var u := WriteOp(db, op, w).value;
    var p := Place(s, k, Payload(op), MetaFor(op, w));
    SeededIsFaithful(db, op, w);
    assert AnswersOnly(p, u);
    hide Place, Remember, Placed, Answered, WriteOp, Credit, FeedMoves, Shrinks, Within;
    var rowid := PlaceIsPlaced(s, k, Payload(op), MetaFor(op, w));
    assert Formats(s);
    AnswersAround(db, s, p, u, w.ref, w.revision) by { PlacedMoves(s, p, k, Payload(op), MetaFor(op, w), rowid); }
    PlacedMoves(s, p, k, Payload(op), MetaFor(op, w), rowid);
    assert p.bucket == s.bucket && p.receipts == s.receipts && p.deliveries == s.deliveries && p.tiering == s.tiering
      && p.format == s.format by { PlacedSameElsewhere(s, p, k, Payload(op), MetaFor(op, w), rowid); }
  }

  lemma AnswersAround(db: Db, s: Db, p: Db, u: Db, ref: ItemRef, revision: int)
    requires AnswersOnly(db, s) && AnswersOnly(p, u)
    requires FeedMoves(s, p) && Shrinks(s, p) && Within(s, p, ref, revision)
    ensures FeedMoves(db, u) && Shrinks(db, u) && Within(db, u, ref, revision)
  {
    forall k | Stored(db, k) ensures Stored(u, k) {
      assert Stored(s, k) && Stored(p, k);
    }
    forall k | Stored(u, k) ensures SameVersion(db, u, k) || (RefOf(k) == ref && MetaOf(u, k).revision == revision) {
      assert SameVersion(s, p, k) || (RefOf(k) == ref && MetaOf(p, k).revision == revision);
    }
  }

  lemma PlacedSameElsewhere(db: Db, u: Db, k: Key, body: Option<Body>, meta: Meta, rowid: int)
    requires Placed(db, u, k, body, meta, rowid)
    ensures u.bucket == db.bucket && u.receipts == db.receipts && u.deliveries == db.deliveries
    ensures u.tiering == db.tiering && u.format == db.format && u.answers == db.answers
  {
  }

  lemma CreditAnswers(p: Db, op: Op, w: Writer, ref: ItemRef)
    requires Answered(p, ref) && (ref == w.ref && Primary(op.section) ==> ref in p.answers && p.answers[ref])
    ensures Answered(Credit(p, op, w), ref)
  {
    hide EvidenceAt;
    var u := Credit(p, op, w);
    SameEvidence(p, u, KeyOf(ref, Items));
    SameEvidence(p, u, KeyOf(ref, Closed));
  }

  /** The answer is persisted before its evidence is overwritten. */
  lemma WriteRemembers(db: Db, op: Op, w: Writer)
    requires Formats(db) && WriteOp(db, op, w).Some?
    ensures Remembers(db, WriteOp(db, op, w).value)
  {
    var s := Seeded(db, op, w);
    var k := KeyOf(w.ref, op.section);
    var p := Place(s, k, Payload(op), MetaFor(op, w));
    assert WriteOp(db, op, w).value == Credit(p, op, w);
    SeededIsFaithful(db, op, w);
    assert Formats(s);
    hide Place, Remember, Placed, Answered, WriteOp, Credit, Seeded;
    var rowid := PlaceIsPlaced(s, k, Payload(op), MetaFor(op, w));
    PlacedSameElsewhere(s, p, k, Payload(op), MetaFor(op, w), rowid);
    forall ref | Answered(db, ref) ensures Answered(Credit(p, op, w), ref) {
      PlacedAnswers(s, p, k, Payload(op), MetaFor(op, w), rowid, ref);
      CreditAnswers(p, op, w, ref);
    }
  }

  lemma WithinKeepsWriter(db: Db, u: Db, w: Writer)
    requires WriterFits(db, w) && WellKeyed(db) && Within(db, u, w.ref, w.revision) && u.bucket == db.bucket
    ensures WriterFits(u, w)
  {
    hide TupleRevision, WellKeyed;
    forall s: Section | !s.Commits? ensures Revision(u, KeyOf(w.ref, s)) <= w.revision {
      var k := KeyOf(w.ref, s);
      if Stored(u, k) {
        assert SameVersion(db, u, k) || MetaOf(u, k).revision == w.revision;
        assert Revision(db, k) <= TupleRevision(db, w.ref);
      }
    }
  }

  lemma {:induction false} WriteAllKeeps(db: Db, ops: seq<Op>, w: Writer)
    requires Inv(db) && WriterFits(db, w) && (forall op | op in ops :: OpFits(op)) && WriteAll(db, ops, w).Some?
    ensures var u := WriteAll(db, ops, w).value;
            Inv(u) && WriterFits(u, w)
            && FeedMoves(db, u) && Shrinks(db, u) && Within(db, u, w.ref, w.revision) && Remembers(db, u)
            && u.bucket == db.bucket && u.receipts == db.receipts && u.deliveries == db.deliveries
            && u.tiering == db.tiering && u.format == db.format
    decreases |ops|
  {
    hide Inv, TupleRevision, WriteOp, FeedMoves, Within, OpFits, WriterFits, Answered;
    InvIsFormats(db);
    if ops == [] {
      EvolvesItself(db);
      WithinItself(db, w);
    } else {
      var v := WriteOp(db, ops[0], w).value;
      assert OpFits(ops[0]);
      WriteKeepsInv(db, ops[0], w);
      WriteMoves(db, ops[0], w);
      WriteRemembers(db, ops[0], w);
      WithinKeepsWriter(db, v, w);
      WriteAllKeeps(v, ops[1..], w);
      var u := WriteAll(db, ops, w).value;
      FeedMovesTransitive(db, v, u);
      WithinTransitive(db, v, u, w.ref, w.revision);
    }
  }

  lemma WithinItself(db: Db, w: Writer)
    ensures Within(db, db, w.ref, w.revision)
  {
  }
}

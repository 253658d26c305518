/** The live version 1 to version 2 migration: it changes no view, passes over no row for good,
    and finishes once writers leave it alone. */
module CanonicalMigration {
  import opened CanonicalTables
  import opened CanonicalTransactions
  import opened CanonicalInvariant
  import opened CanonicalEvolution

  // ----- detaching one tuple -----

  /** Some version 1 rows became version 2 rows with the same metadata; nothing else moved. */
  ghost predicate Detached(db: Db, u: Db, moved: set<Key>) {
    && u == db.(v1 := u.v1, v2 := u.v2, chunks := u.chunks)
    && moved <= db.v1.Keys
    && u.v1 == db.v1 - moved
    && u.chunks == db.chunks - moved
    && u.v2.Keys == db.v2.Keys + moved
    && (forall k | k in db.v2 && k !in moved :: u.v2[k] == db.v2[k])
    && (forall k | k in moved :: u.v2[k] == db.v1[k].meta)
  }

  lemma SnapshotLegacy(db: Db, ref: ItemRef)
    requires WellKeyed(db)
    ensures var s := TakeSnapshot(db, ref);
            && Legacy(s) == (set k | k in TupleKeys(ref) && k in db.v1)
            && (forall k | k in Legacy(s) :: s.rows[k].meta == db.v1[k].meta)
  {
  }

  lemma DetachIsDetached(db: Db, ref: ItemRef)
    requires WellKeyed(db)
    ensures Detached(db, Detach(db, TakeSnapshot(db, ref)), Legacy(TakeSnapshot(db, ref)))
  {
    SnapshotLegacy(db, ref);
    hide TakeSnapshot;
  }

  lemma DetachedView(db: Db, u: Db, moved: set<Key>, k: Key)
    requires WellKeyed(db) && Detached(db, u, moved)
    ensures Stored(u, k) == Stored(db, k)
    ensures Stored(db, k) ==> MetaOf(u, k) == MetaOf(db, k)
  {
  }

  /** The read view and the export index are exactly what they were. */
  ghost predicate SameViews(a: Db, b: Db) {
    && (forall k :: Stored(a, k) == Stored(b, k))
    && (forall k | Stored(a, k) :: MetaOf(b, k) == MetaOf(a, k))
    && b.exports == a.exports && b.exportRevision == a.exportRevision && b.imports == a.imports
    && b.receipts == a.receipts && b.deliveries == a.deliveries && b.format == a.format && b.bucket == a.bucket
  }

  lemma DetachedSameViews(db: Db, u: Db, moved: set<Key>)
    requires WellKeyed(db) && Detached(db, u, moved)
    ensures SameViews(db, u)
  {
    hide WellKeyed, Detached, Stored, MetaOf;
    forall k ensures Stored(u, k) == Stored(db, k) && (Stored(db, k) ==> MetaOf(u, k) == MetaOf(db, k)) {
      DetachedView(db, u, moved, k);
    }
    DetachedElsewhere(db, u, moved);
  }

  lemma DetachedElsewhere(db: Db, u: Db, moved: set<Key>)
    requires Detached(db, u, moved)
    ensures u == db.(v1 := u.v1, v2 := u.v2, chunks := u.chunks)
  {
  }

  lemma SameViewsRevisions(a: Db, b: Db)
    requires SameViews(a, b)
    ensures forall ref :: TupleRevision(b, ref) == TupleRevision(a, ref)
  {
    forall k ensures Revision(b, k) == Revision(a, k) {}
  }

  lemma SameViewsReceipts(a: Db, b: Db)
    requires SameViews(a, b) && ReceiptsFit(a) && ReceiptsUnique(a)
    ensures ReceiptsFit(b) && ReceiptsUnique(b)
  {
    SameViewsRevisions(a, b);
    hide TupleRevision;
  }

  lemma DetachedKeepsRows(db: Db, u: Db, moved: set<Key>)
    requires WellKeyed(db) && RowidsDistinct(db.v1) && Owned(db) && Detached(db, u, moved)
    ensures WellKeyed(u) && RowidsDistinct(u.v1) && Owned(u)
  {
  }

  lemma DetachedKeepsBodies(db: Db, u: Db, moved: set<Key>)
    requires V1Bodies(db) && V2Bodies(db) && Detached(db, u, moved)
    requires forall k | k in moved && db.v1[k].meta.digest.Some? :: db.v1[k].meta.digest.value in db.bucket
    ensures V1Bodies(u) && V2Bodies(u)
  {
    forall k | k in u.v1 ensures V1Body(u, k) == V1Body(db, k) {}
  }

  lemma DetachedKeepsAgreement(db: Db, u: Db, moved: set<Key>)
    requires WellKeyed(db) && Agreement(db) && Detached(db, u, moved)
    ensures Agreement(u)
  {
  }

  lemma DetachedKeepsSources(db: Db, u: Db, moved: set<Key>)
    requires Sourced(db) && FeedOrder(db) && Detached(db, u, moved)
    ensures Sourced(u) && FeedOrder(u)
  {
    DetachedElsewhere(db, u, moved);
    hide FeedOrder, Detached;
    SameFeedKeepsOrder(db, u);
  }

  lemma DetachedKeepsFrontier(db: Db, u: Db, moved: set<Key>)
    requires Frontier(db) && Formats(db) && db.format.V2? && Detached(db, u, moved)
    ensures Frontier(u) && Formats(u)
  {
  }

  lemma DetachedKeepsInv(db: Db, u: Db, moved: set<Key>)
    requires Inv(db) && db.format.V2? && Detached(db, u, moved)
    requires forall k | k in moved && db.v1[k].meta.digest.Some? :: db.v1[k].meta.digest.value in db.bucket
    ensures Inv(u)
  {
    DetachedElsewhere(db, u, moved);
    hide WellKeyed, RowidsDistinct, V1Bodies, V2Bodies, Agreement, Sourced, FeedOrder, Owned, ReceiptsFit,
      ReceiptsUnique, Formats, Frontier, TupleRevision, Detached, SameViews;
    DetachedKeepsRows(db, u, moved);
    DetachedKeepsBodies(db, u, moved);
    DetachedKeepsAgreement(db, u, moved);
    DetachedKeepsSources(db, u, moved);
    DetachedKeepsFrontier(db, u, moved);
    DetachedSameViews(db, u, moved);
    SameViewsReceipts(db, u);
  }

  lemma DetachedEvidence(db: Db, u: Db, moved: set<Key>, k: Key)
    requires WellKeyed(db) && Detached(db, u, moved) && k !in moved
    ensures EvidenceAt(u, k) == EvidenceAt(db, k)
  {
    if Stored(db, k) {
      DetachedView(db, u, moved, k);
      assert Provenance(u, k) == Provenance(db, k);
    }
  }

  /** Detaching destroys evidence, so whoever it could answer must have been remembered. */
  lemma DetachedEvolves(db: Db, u: Db, moved: set<Key>, ref: ItemRef)
    requires WellKeyed(db) && Detached(db, u, moved) && moved <= TupleKeys(ref)
    requires Answered(db, ref) ==> ref in db.answers
    ensures Evolves(db, u)
  {
    DetachedElsewhere(db, u, moved);
    DetachedSameViews(db, u, moved);
    hide EvidenceAt, TupleRevision, WellKeyed;
    assert Shrinks(db, u);
    hide Detached;
    forall q | Answered(db, q) ensures Answered(u, q) {
      if q != ref {
        DetachedEvidence(db, u, moved, KeyOf(q, Items));
        DetachedEvidence(db, u, moved, KeyOf(q, Closed));
      }
    }
    assert FeedMoves(db, u);
    SameViewsRaise(db, u);
  }

  lemma SameViewsRaise(a: Db, b: Db)
    requires SameViews(a, b)
    ensures ViewRaises(a, b)
  {
    hide TupleRevision;
  }

  // ----- one tuple of a commit -----

  /** In a consistent store the only conflict is that the tuple changed since it was scanned. */
  lemma ConflictsExactlyWhenChanged(db: Db, t: PassTuple)
    requires WellKeyed(db) && Agreement(db)
    ensures Conflicts(db, t) <==> TakeSnapshot(db, t.ref) != t.snapshot
  {
    var s := TakeSnapshot(db, t.ref);
    forall k | k in s.rows ensures k in s.exports && ExportAgrees(s.rows[k].meta, s.exports[k]) {}
    assert s.rows.Keys == CanonicalExports(s) by {
      forall k | k in CanonicalExports(s) ensures k in s.rows {
        assert !k.section.Commits?;
      }
    }
    assert |s.rows| == |s.rows.Keys|;
  }

  ghost predicate TupleBodiesStored(db: Db, t: PassTuple) {
    forall k | k in Legacy(t.snapshot) && t.snapshot.rows[k].meta.digest.Some? :: t.snapshot.rows[k].meta.digest.value in db.bucket
  }

  lemma RememberedIsKept(db: Db, ref: ItemRef)
    ensures AnswersOnly(db, Remember(db, ref))
    ensures Answered(Remember(db, ref), ref) ==> ref in Remember(db, ref).answers
  {
    hide EvidenceAt;
    RememberIsFaithful(db, ref);
  }

  lemma AnswersOnlySnapshot(a: Db, b: Db, ref: ItemRef)
    requires AnswersOnly(a, b)
    ensures TakeSnapshot(b, ref) == TakeSnapshot(a, ref)
  {
    assert TakeSnapshot(b, ref).rows == TakeSnapshot(a, ref).rows;
  }

  lemma LegacyIsInTuple(db: Db, ref: ItemRef)
    ensures Legacy(TakeSnapshot(db, ref)) <= TupleKeys(ref)
  {
  }

  lemma CommitTupleKeeps(p: Progress, t: PassTuple)
    requires Inv(p.db) && p.db.format.V2? && TupleBodiesStored(p.db, t)
    ensures var q := CommitTuple(p, t);
            Inv(q.db) && Evolves(p.db, q.db) && SameViews(p.db, q.db) && q.db.tiering == p.db.tiering
            && (forall k | k in q.db.v1 :: k in p.db.v1 && q.db.v1[k] == p.db.v1[k])
            && (q.conflicts == p.conflicts ==> forall k | k in q.db.v1 :: RefOf(k) != t.ref)
            && q.conflicts >= p.conflicts
  {
    if Conflicts(p.db, t) {
      hide TupleRevision, Conflicts;
      EvolvesItself(p.db);
    } else {
      var m := Remember(p.db, t.ref);
      var moved := Legacy(t.snapshot);
      var u := Detach(m, t.snapshot);
      assert TakeSnapshot(p.db, t.ref) == t.snapshot;
      assert CommitTuple(p, t).db == u && CommitTuple(p, t).conflicts == p.conflicts;
      hide Inv, Evolves, Remember, Answered, Detach, Detached, TakeSnapshot, Conflicts, CommitTuple, AnswersOnly, SameViews;
      RememberedIsKept(p.db, t.ref);
      RememberEvolves(p.db, t.ref);
      AnswersOnlyKeepsInv(p.db, m);
      AnswersOnlySnapshot(p.db, m, t.ref);
      InvIsFormats(p.db);
      InvIsFormats(m);
      DetachIsDetached(m, t.ref);
      LegacyIsInTuple(m, t.ref);
      SnapshotLegacy(m, t.ref);
      assert m.bucket == p.db.bucket && m.v1 == p.db.v1 && m.format == p.db.format && m.tiering == p.db.tiering by {
        AnswersOnlyElsewhere(p.db, m);
      }
      DetachedKeepsInv(m, u, moved);
      DetachedEvolves(m, u, moved, t.ref);
      EvolvesTransitive(p.db, m, u);
      DetachedSameViews(m, u, moved);
      AnswersOnlySameViews(p.db, m, u);
      DetachedLeaves(m, u, moved, t.ref);
    }
  }

  lemma AnswersOnlyElsewhere(a: Db, b: Db)
    requires AnswersOnly(a, b)
    ensures b == a.(answers := b.answers)
  {
  }

  lemma AnswersOnlySameViews(a: Db, m: Db, b: Db)
    requires AnswersOnly(a, m) && SameViews(m, b)
    ensures SameViews(a, b)
  {
  }

  lemma DetachedLeaves(db: Db, u: Db, moved: set<Key>, ref: ItemRef)
    requires WellKeyed(db) && Detached(db, u, moved) && moved == (set k | k in TupleKeys(ref) && k in db.v1)
    ensures u.tiering == db.tiering
    ensures forall k | k in u.v1 :: k in db.v1 && u.v1[k] == db.v1[k] && RefOf(k) != ref
  {
    forall k | k in db.v1 && RefOf(k) == ref ensures k in TupleKeys(ref) {
      assert k == KeyOf(ref, k.section);
    }
  }

  lemma SameViewsTransitive(a: Db, b: Db, c: Db)
    requires SameViews(a, b) && SameViews(b, c)
    ensures SameViews(a, c)
  {
  }

  lemma {:induction false} CommitTuplesKeep(p: Progress, ts: seq<PassTuple>)
    requires Inv(p.db) && p.db.format.V2? && (forall t | t in ts :: TupleBodiesStored(p.db, t))
    ensures var q := CommitTuples(p, ts);
            Inv(q.db) && Evolves(p.db, q.db) && SameViews(p.db, q.db) && q.db.tiering == p.db.tiering
            && (forall k | k in q.db.v1 :: k in p.db.v1 && q.db.v1[k] == p.db.v1[k])
            && (q.conflicts == p.conflicts ==> forall t, k | t in ts && k in q.db.v1 :: RefOf(k) != t.ref)
            && q.conflicts >= p.conflicts
    decreases |ts|
  {
    hide Inv, Evolves, CommitTuple, SameViews, TupleBodiesStored;
    if ts == [] {
      EvolvesItself(p.db);
      SameViewsItself(p.db);
    } else {
      var v := CommitTuple(p, ts[0]);
      assert ts[0] in ts;
      CommitTupleKeeps(p, ts[0]);
      SameViewsElsewhere(p.db, v.db);
      forall t | t in ts[1..] ensures TupleBodiesStored(v.db, t) {
        assert TupleBodiesStored(p.db, t);
        BucketKeepsBodies(p.db, v.db, t);
      }
      CommitTuplesKeep(v, ts[1..]);
      var q := CommitTuples(p, ts);
      InvIsFormats(p.db);
      EvolvesTransitive(p.db, v.db, q.db);
      SameViewsTransitive(p.db, v.db, q.db);
      if q.conflicts == p.conflicts {
        forall t, k | t in ts && k in q.db.v1 ensures RefOf(k) != t.ref {
          assert t == ts[0] || t in ts[1..];
        }
      }
    }
  }

  lemma SameViewsItself(a: Db)
    ensures SameViews(a, a)
  {
  }

  lemma SameViewsElsewhere(a: Db, b: Db)
    requires SameViews(a, b)
    ensures b.format == a.format && b.bucket == a.bucket
  {
  }

  lemma BucketKeepsBodies(a: Db, b: Db, t: PassTuple)
    requires TupleBodiesStored(a, t) && a.bucket <= b.bucket
    ensures TupleBodiesStored(b, t)
  {
  }
}

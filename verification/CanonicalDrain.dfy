/** Left alone by writers, the migration drains: no pass fails or meets a conflict, and after a
    bounded number of passes version 1 is empty and the checkpoint is complete. */
module CanonicalDrain {
  import opened Ordering
  import opened CanonicalTables
  import opened CanonicalTransactions
  import opened CanonicalInvariant
  import opened CanonicalEvolution
  import opened CanonicalMigration
  import opened CanonicalFrontier
  import opened CanonicalMaintenance

  // ----- a scan of a consistent store never fails -----

  /** Four files of at most 2 MiB always fit the 8 MiB budget of a pass. */
  lemma TupleAlwaysFits(db: Db, ref: ItemRef)
    requires WellKeyed(db) && V1Bodies(db)
    ensures LegacyBytes(TakeSnapshot(db, ref), ref) <= PASS_BYTES
    ensures Migratable(db, TakeSnapshot(db, ref))
  {
    var s := TakeSnapshot(db, ref);
    forall k ensures LegacySize(s, k) <= MAX_FILE_BYTES {}
  }

  lemma {:induction false} ScanNeverFails(db: Db, q: seq<Key>, s: Scan)
    requires WellKeyed(db) && V1Bodies(db) && (forall k | k in q :: k in db.v1)
    ensures ScanTuples(db, q, s).Some?
    decreases |q|
  {
    if q != [] {
      TupleAlwaysFits(db, RefOf(q[0]));
      hide V1Bodies, WellKeyed, TakeSnapshot, Migratable, LegacyBytes;
      if ScanRow(db, q[0], s).Go? {
        ScanNeverFails(db, q[1..], ScanRow(db, q[0], s).next);
      }
    }
  }

  /** A scan with a row ahead of it takes that row's tuple. */
  lemma ScanTakesTheFirst(db: Db, q: seq<Key>, after: int)
    requires WellKeyed(db) && V1Bodies(db) && AscendingRows(db, q) && q != []
    requires forall k | k in q :: k in db.v1 && after < db.v1[k].rowid
    ensures var r := ScanTuples(db, q, Scan([], {}, after, 0));
            r.Some? && r.value.tuples != [] && r.value.tuples[0].ref == RefOf(q[0])
  {
    var s := Scan([], {}, after, 0);
    ScanNeverFails(db, q, s);
    TupleAlwaysFits(db, RefOf(q[0]));
    assert ScanRow(db, q[0], s).Go? && ScanRow(db, q[0], s).next.tuples == [PassTuple(RefOf(q[0]), TakeSnapshot(db, RefOf(q[0])))];
    var next := ScanRow(db, q[0], s).next;
    ScanRowFacts(db, q[0], s);
    hide V1Bodies, WellKeyed, ScanRow, AscendingRows, ScanFits;
    AscendingTail(db, q);
    ScanCovers(db, q[1..], next);
  }

  // ----- a quiet commit meets no conflict -----

  lemma DetachedSnapshot(db: Db, u: Db, moved: set<Key>, ref: ItemRef, other: ItemRef)
    requires WellKeyed(db) && Detached(db, u, moved) && moved <= TupleKeys(ref) && other != ref
    ensures TakeSnapshot(u, other) == TakeSnapshot(db, other)
  {
    forall k | k in TupleKeys(other)
      ensures Stored(u, k) == Stored(db, k) && FormatOf(u, k) == FormatOf(db, k)
      ensures Stored(db, k) ==> MetaOf(u, k) == MetaOf(db, k)
    {
      DetachedRow(db, u, moved, ref, k);
    }
    DetachedElsewhere(db, u, moved);
    hide Detached, WellKeyed, Stored, MetaOf, FormatOf, TupleKeys;
    assert TakeSnapshot(u, other).rows == TakeSnapshot(db, other).rows;
    assert TakeSnapshot(u, other).exports == TakeSnapshot(db, other).exports;
  }

  lemma DetachedRow(db: Db, u: Db, moved: set<Key>, ref: ItemRef, k: Key)
    requires WellKeyed(db) && Detached(db, u, moved) && moved <= TupleKeys(ref) && RefOf(k) != ref
    ensures Stored(u, k) == Stored(db, k) && FormatOf(u, k) == FormatOf(db, k)
    ensures Stored(db, k) ==> MetaOf(u, k) == MetaOf(db, k)
  {
    assert k !in moved;
  }

  lemma CommitTupleElsewhere(p: Progress, t: PassTuple, other: ItemRef)
    requires WellKeyed(p.db) && other != t.ref
    ensures TakeSnapshot(CommitTuple(p, t).db, other) == TakeSnapshot(p.db, other)
  {
    if !Conflicts(p.db, t) {
      var m := Remember(p.db, t.ref);
      var moved := Legacy(t.snapshot);
      assert TakeSnapshot(p.db, t.ref) == t.snapshot;
      hide Remember, Detach, Detached, TakeSnapshot, Conflicts, Answered, AnswersOnly, Legacy;
      RememberedIsKept(p.db, t.ref);
      AnswersOnlySnapshot(p.db, m, t.ref);
      AnswersOnlySnapshot(p.db, m, other);
      assert WellKeyed(m) by { AnswersOnlyElsewhere(p.db, m); }
      DetachIsDetached(m, t.ref);
      LegacyIsInTuple(m, t.ref);
      DetachedSnapshot(m, Detach(m, t.snapshot), moved, t.ref, other);
    }
  }

  lemma {:induction false} QuietCommitHasNoConflicts(p: Progress, ts: seq<PassTuple>)
    requires Inv(p.db) && p.db.format.V2? && (forall t | t in ts :: TupleBodiesStored(p.db, t))
    requires FromState(p.db, ts) && RefsDistinct(ts)
    ensures CommitTuples(p, ts).conflicts == p.conflicts
    decreases |ts|
  {
    hide Inv, Evolves, CommitTuple, SameViews, TupleBodiesStored, TakeSnapshot, FromState, RefsDistinct;
    if ts != [] {
      var v := CommitTuple(p, ts[0]);
      assert ts[0] in ts;
      FirstHasNoConflict(p, ts);
      CommitTupleKeeps(p, ts[0]);
      SameViewsElsewhere(p.db, v.db);
      RestIsFromState(p, ts);
      QuietCommitHasNoConflicts(v, ts[1..]);
    }
  }

  lemma FirstHasNoConflict(p: Progress, ts: seq<PassTuple>)
    requires Inv(p.db) && ts != [] && FromState(p.db, ts)
    ensures CommitTuple(p, ts[0]).conflicts == p.conflicts
  {
    hide TakeSnapshot, Inv, Conflicts, Agreement, Sourced, FeedOrder, WellKeyed, RowidsDistinct, Formats;
    assert ts[0] in ts;
    InvIsSourced(p.db);
    InvIsFormats(p.db);
    ConflictsExactlyWhenChanged(p.db, ts[0]);
  }

  lemma RestIsFromState(p: Progress, ts: seq<PassTuple>)
    requires Inv(p.db) && p.db.format.V2? && ts != [] && (forall t | t in ts :: TupleBodiesStored(p.db, t))
    requires FromState(p.db, ts) && RefsDistinct(ts)
    ensures var v := CommitTuple(p, ts[0]);
            FromState(v.db, ts[1..]) && RefsDistinct(ts[1..]) && (forall t | t in ts[1..] :: TupleBodiesStored(v.db, t))
  {
    hide Inv, Evolves, CommitTuple, SameViews, TupleBodiesStored, TakeSnapshot, WellKeyed, RowidsDistinct, Formats, FeedOrder;
    var v := CommitTuple(p, ts[0]);
    assert ts[0] in ts;
    CommitTupleKeeps(p, ts[0]);
    SameViewsElsewhere(p.db, v.db);
    InvIsFormats(p.db);
    forall t | t in ts[1..] ensures TupleBodiesStored(v.db, t) && t.snapshot == TakeSnapshot(v.db, t.ref) {
      assert TupleBodiesStored(p.db, t);
      BucketKeepsBodies(p.db, v.db, t);
      var i :| 0 <= i < |ts[1..]| && ts[1..][i] == t;
      assert ts[i + 1] == t;
      CommitTupleElsewhere(p, ts[0], t.ref);
    }
  }

  // ----- one quiet pass -----

  /** Scan, store the bodies, commit, with no writer in between. */
  ghost function QuietPass(db: Db, now: int): Db
    requires RowidsDistinct(db.v1)
  {
    var pass := PreparePass(db);
    if pass.None? then db
    else CommitPass(db.(bucket := db.bucket + PassBodies(pass.value)), pass.value, now)
  }

  ghost function Remaining(db: Db): nat
    requires db.tiering.Some?
  {
    2 * |db.v1| + if Ahead(db, db.tiering.value) == map[] then 1 else 0
  }

  ghost predicate Finished(db: Db) {
    db.tiering.Some? && db.tiering.value.completedAt.Some?
  }

  lemma PassAlwaysPrepares(db: Db)
    requires Inv(db) && db.format.V2?
    ensures db.tiering.Some? && PreparePass(db).Some?
  {
    var c := db.tiering.value;
    hide Sorted, Limit, Ahead, ScanTuples, Agreement, Sourced, FeedOrder, Owned, ReceiptsFit, ReceiptsUnique, Frontier;
    ScanNeverFails(db, Candidates(db, c), Scan([], {}, c.after, 0));
  }

  lemma StoringMoreSnapshots(db: Db, more: set<Digest>, ref: ItemRef)
    ensures TakeSnapshot(db.(bucket := db.bucket + more), ref) == TakeSnapshot(db, ref)
  {
    var u := db.(bucket := db.bucket + more);
    assert forall k :: Stored(u, k) == Stored(db, k);
    assert TakeSnapshot(u, ref).rows == TakeSnapshot(db, ref).rows;
  }

  /** What a quiet pass does to version 1: the scanned tuples leave it, nothing else does. */
  lemma QuietCommit(db: Db)
    requires Inv(db) && db.format.V2? && PreparePass(db).Some?
    ensures var pass := PreparePass(db).value;
            var u := db.(bucket := db.bucket + PassBodies(pass));
            var p := Committed(u, pass);
            && p.conflicts == 0 && Inv(p.db)
            && (forall k | k in p.db.v1 :: k in db.v1 && p.db.v1[k] == db.v1[k] && RefOf(k) !in Refs(pass.tuples))
  {
    var pass := PreparePass(db).value;
    var u := db.(bucket := db.bucket + PassBodies(pass));
    hide Inv, CommitTuples, TakeSnapshot, PreparePass, PassBodies, Evolves, SameViews, TupleBodiesStored;
    InvIsFormats(db);
    PassCovers(db);
    StoringBodiesKeeps(db, PassBodies(pass));
    PassBodiesStored(u, pass);
    forall t | t in pass.tuples ensures t.snapshot == TakeSnapshot(u, t.ref) {
      StoringMoreSnapshots(db, PassBodies(pass), t.ref);
    }
    QuietCommitHasNoConflicts(Progress(u, 0, 0, 0), pass.tuples);
    CommitTuplesKeep(Progress(u, 0, 0, 0), pass.tuples);
  }

  /** With rows ahead of the cursor, a quiet pass moves at least one. */
  lemma QuietPassMoves(db: Db)
    requires Inv(db) && db.format.V2? && PreparePass(db).Some? && Ahead(db, db.tiering.value) != map[]
    ensures var pass := PreparePass(db).value;
            |Committed(db.(bucket := db.bucket + PassBodies(pass)), pass).db.v1| < |db.v1|
  {
    var c := db.tiering.value;
    var q := Candidates(db, c);
    var pass := PreparePass(db).value;
    var u := db.(bucket := db.bucket + PassBodies(pass));
    assert WellKeyed(db) && V1Bodies(db) && RowidsDistinct(db.v1);
    assert pass.tuples == ScanTuples(db, q, Scan([], {}, c.after, 0)).value.tuples;
    hide Inv, PreparePass, PassBodies, ScanTuples, WellKeyed, V1Bodies, Candidates, AscendingRows, CommitTuples;
    CandidatesAscend(db, c);
    assert forall k | k in q :: k in db.v1;
    ScanTakesTheFirst(db, q, c.after);
    QuietCommit(db);
    assert pass.tuples[0] in pass.tuples;
    assert RefOf(q[0]) in Refs(pass.tuples);
    FewerKeys(db.v1, Committed(u, pass).db.v1, q[0]);
  }

  /** With no row ahead, the cursor returns to its restart point, ahead of which is everything. */
  lemma QuietPassRestarts(db: Db)
    requires Inv(db) && db.format.V2? && PreparePass(db).Some? && Ahead(db, db.tiering.value) == map[]
    ensures var pass := PreparePass(db).value;
            pass.tuples == [] && pass.end && pass.after == db.tiering.value.after
  {
    var c := db.tiering.value;
    hide Inv;
    InvIsFormats(db);
    CandidatesAreAhead(db, c);
    hide RowidsDistinct;
    assert |Sorted(Ahead(db, c))| == 0;
    assert Candidates(db, c) == [];
  }

  lemma RestartPutsEverythingAhead(db: Db, c: Checkpoint)
    requires Frontier(db) && db.tiering.Some? && Ahead(db, db.tiering.value) == map[] && db.v1 != map[]
    requires c.upper == db.tiering.value.upper
    requires c.after == if db.tiering.value.deferred.Some? then db.tiering.value.deferred.value else 0
    ensures Ahead(db, c) != map[]
  {
    var k :| k in db.v1;
    assert k !in Ahead(db, db.tiering.value);
    assert k in Ahead(db, c);
  }

  lemma EmptyIsDrained(db: Db)
    requires V1Bodies(db) && db.v1 == map[]
    ensures Drained(db)
  {
    assert db.chunks.Keys == {};
  }

  lemma InvIsParts(db: Db)
    requires Inv(db)
    ensures V1Bodies(db) && Frontier(db)
  {
  }

  lemma QuietPassAdvances(db: Db, now: int)
    requires Inv(db) && db.format.V2? && !Finished(db)
    ensures var u := QuietPass(db, now);
            Inv(u) && Evolves(db, u) && u.format.V2? && u.tiering.Some? && (Finished(u) || Remaining(u) < Remaining(db))
  {
    hide Inv, PreparePass, PassBodies, CommitTuples, Evolves, SameViews, TakeSnapshot, Drained, Ahead, V1Bodies, Frontier,
      RowidsDistinct, WellKeyed, Formats, FeedOrder;
    PassAlwaysPrepares(db);
    InvIsFormats(db);
    InvIsParts(db);
    var pass := PreparePass(db).value;
    var more := PassBodies(pass);
    var b := db.(bucket := db.bucket + more);
    var u := QuietPass(db, now);
    PassCovers(db);
    StoringBodiesKeeps(db, more);
    assert PassFrom(db, b, pass) by { StoredPassIsFrom(db, pass, more); }
    CommitKeeps(db, b, pass, now);
    EvolvesTransitive(db, b, u);
    var p := Committed(b, pass);
    QuietCommit(db);
    assert u == p.db.(tiering := Some(NextCheckpoint(pass.checkpoint, pass, p, now)));
    assert u.format.V2? by { SameViewsElsewhere(b, u); }
    QuietRemaining(db, b, u, now);
  }

  lemma QuietRemaining(db: Db, b: Db, u: Db, now: int)
    requires Inv(db) && db.format.V2? && !Finished(db) && PreparePass(db).Some? && db.tiering.Some?
    requires b == db.(bucket := db.bucket + PassBodies(PreparePass(db).value))
    requires var pass := PreparePass(db).value;
             var p := Committed(b, pass);
             && Inv(p.db) && p.conflicts == 0 && pass.checkpoint == db.tiering.value
             && u == p.db.(tiering := Some(NextCheckpoint(pass.checkpoint, pass, p, now)))
    ensures u.tiering.Some? && (Finished(u) || Remaining(u) < Remaining(db))
  {
    hide Inv, PreparePass, PassBodies, Drained, V1Bodies, Frontier;
    InvIsFormats(db);
    var pass := PreparePass(db).value;
    InvIsParts(db);
    var p := Committed(b, pass);
    if Ahead(db, db.tiering.value) != map[] {
      hide CommitTuples, Ahead;
      QuietPassMoves(db);
    } else {
      QuietPassRestarts(db);
      assert p.db == b;
      assert u.v1 == db.v1;
      if !Drained(p.db) {
        InvIsParts(p.db);
        if db.v1 == map[] { EmptyIsDrained(p.db); }
        assert pass.end;
        var c := u.tiering.value;
        RestartPutsEverythingAhead(db, c);
        assert Ahead(u, c) == Ahead(db, c);
      }
    }
  }

  lemma StoredPassIsFrom(db: Db, pass: Pass, more: set<Digest>)
    requires RowidsDistinct(db.v1) && PreparePass(db) == Some(pass) && more == PassBodies(pass)
    ensures PassFrom(db, db.(bucket := db.bucket + more), pass)
  {
    hide PreparePass, PassBodies;
  }

  ghost function QuietPasses(db: Db, nows: seq<int>): Db
    decreases |nows|
  {
    if nows == [] || !RowidsDistinct(db.v1) then db else QuietPasses(QuietPass(db, nows[0]), nows[1..])
  }

  lemma FinishedStays(db: Db, now: int)
    requires Inv(db) && db.format.V2? && Finished(db)
    ensures var u := QuietPass(db, now);
            Inv(u) && Evolves(db, u) && u.format.V2? && Finished(u)
  {
    hide Inv, PreparePass, PassBodies, CommitTuples, Evolves, SameViews, TakeSnapshot, Ahead, V1Bodies, Frontier,
      RowidsDistinct, WellKeyed, Formats, FeedOrder;
    PassAlwaysPrepares(db);
    InvIsFormats(db);
    var pass := PreparePass(db).value;
    var more := PassBodies(pass);
    var b := db.(bucket := db.bucket + more);
    var u := QuietPass(db, now);
    PassCovers(db);
    StoringBodiesKeeps(db, more);
    assert PassFrom(db, b, pass) by { StoredPassIsFrom(db, pass, more); }
    CommitKeeps(db, b, pass, now);
    EvolvesTransitive(db, b, u);
    SameViewsElsewhere(b, u);
    if !MarkedComplete(pass.checkpoint) {
      CompletionMeansDrained(b, pass, now);
      QuietCommit(db);
      assert Drained(db) by { FinishedIsDrained(db); }
      var p := Committed(b, pass);
      assert p.db.v1.Keys == {};
      InvIsParts(p.db);
      EmptyIsDrained(p.db);
    }
  }

  lemma FinishedIsDrained(db: Db)
    requires Inv(db) && Finished(db)
    ensures Drained(db)
  {
  }

  /** At most two passes per remaining version 1 row and one more finish the migration. */
  lemma {:induction false} MigrationDrains(db: Db, nows: seq<int>)
    requires Inv(db) && db.format.V2?
    requires Finished(db) || (db.tiering.Some? && |nows| >= Remaining(db))
    ensures var u := QuietPasses(db, nows);
            Inv(u) && Evolves(db, u) && Finished(u) && Drained(u)
    decreases |nows|
  {
    hide Inv, Evolves, QuietPass, RowidsDistinct, WellKeyed, Formats, FeedOrder, Drained;
    InvIsFormats(db);
    if nows == [] {
      EvolvesItself(db);
      FinishedIsDrained(db) by { hide Ahead; assert Finished(db); }
    } else {
      var v := QuietPass(db, nows[0]);
      if Finished(db) {
        FinishedStays(db, nows[0]);
      } else {
        QuietPassAdvances(db, nows[0]);
      }
      MigrationDrains(v, nows[1..]);
      EvolvesTransitive(db, v, QuietPasses(db, nows));
    }
  }
}

/** How much one migration pass takes, where it stops, and what its commit counts. */
module CanonicalPasses {
  import opened Ordering
  import opened CanonicalTables
  import opened CanonicalTransactions
  import opened CanonicalInvariant
  import opened CanonicalEvolution
  import opened CanonicalMigration
  import opened CanonicalFrontier
  import opened CanonicalDrain

  // ----- the limits of a pass -----

  function TotalBytes(ts: seq<PassTuple>): nat {
    if ts == [] then 0 else TotalBytes(ts[..|ts| - 1]) + LegacyBytes(ts[|ts| - 1].snapshot, ts[|ts| - 1].ref)
  }

  ghost predicate WithinLimits(s: Scan) { |s.tuples| <= 4 && s.bytes == TotalBytes(s.tuples) <= 8388608 }

  /** No room for the row's tuple: four are taken, or its bytes would exceed the budget. */
  ghost predicate NoRoom(db: Db, ts: seq<PassTuple>, k: Key) {
    && (forall t | t in ts :: t.ref != RefOf(k))
    && (|ts| == 4 || TotalBytes(ts) + LegacyBytes(TakeSnapshot(db, RefOf(k)), RefOf(k)) > 8388608)
  }

  lemma ScanRowFits(db: Db, k: Key, s: Scan)
    requires k in db.v1 && ScanFits(db, s) && WithinLimits(s)
    ensures ScanRow(db, k, s).Go? ==> WithinLimits(ScanRow(db, k, s).next)
    ensures ScanRow(db, k, s).Stop? ==> NoRoom(db, s.tuples, k)
  {
    hide TakeSnapshot, Migratable, LegacyBytes, FromState;
    var ref := RefOf(k);
    var t := PassTuple(ref, TakeSnapshot(db, ref));
    assert (s.tuples + [t])[..|s.tuples|] == s.tuples;
  }

  /** A scan takes some first rows; it stops before the end only for want of room. */
  lemma {:induction false} ScanStopsAt(db: Db, q: seq<Key>, s: Scan) returns (n: nat)
    requires (forall k | k in q :: k in db.v1) && ScanTuples(db, q, s).Some? && ScanFits(db, s) && WithinLimits(s)
    ensures var r := ScanTuples(db, q, s).value;
            && n <= |q| && r.after == (if n == 0 then s.after else db.v1[q[n - 1]].rowid)
            && WithinLimits(r) && (n < |q| ==> NoRoom(db, r.tuples, q[n]))
    decreases |q|
  {
    hide ScanRow, ScanFits, WithinLimits, NoRoom;
    n := 0;
    if q != [] {
      ScanRowFits(db, q[0], s);
      if ScanRow(db, q[0], s).Go? {
        ScanRowFacts(db, q[0], s);
        var rest := ScanStopsAt(db, q[1..], ScanRow(db, q[0], s).next);
        n := rest + 1;
      }
    }
  }

  /** The version 1 rows after one cursor, up to another. */
  ghost function RowsBetween(db: Db, after: int, upto: int): set<Key> { set k | k in db.v1 && after < db.v1[k].rowid <= upto }

  ghost predicate FirstBeyond(db: Db, after: int, k: Key) {
    k in db.v1 && after < db.v1[k].rowid && forall j | j in db.v1 && after < db.v1[j].rowid :: db.v1[k].rowid <= db.v1[j].rowid
  }

  lemma {:induction false} CountThroughIs(db: Db, q: seq<Key>, n: nat, after: int)
    requires AscendingRows(db, q) && n <= |q|
    requires (forall i | 0 <= i < n :: db.v1[q[i]].rowid <= after) && (forall i | n <= i < |q| :: after < db.v1[q[i]].rowid)
    ensures forall k | k in q :: k in db.v1
    ensures CountThrough(db, q, after) == n
    decreases |q|
  {
    if q != [] {
      AscendingTail(db, q);
      assert forall i | 0 <= i < |q[1..]| :: q[1..][i] == q[i + 1];
      CountThroughIs(db, q[1..], if n == 0 then 0 else n - 1, after);
    }
  }

  lemma ScannedRows(db: Db, c: Checkpoint, q: seq<Key>, n: nat, after: int)
    requires RowidsDistinct(db.v1) && (forall k | k in db.v1 :: db.v1[k].rowid <= c.upper)
    requires q == Candidates(db, c) && AscendingRows(db, q) && (forall k | k in q :: c.after < db.v1[k].rowid <= c.upper)
    requires n <= |q| && after == (if n == 0 then c.after else db.v1[q[n - 1]].rowid)
    ensures RowsBetween(db, c.after, after) == Members(q[..n]) && |Members(q[..n])| == n
    ensures forall i | n <= i < |q| :: after < db.v1[q[i]].rowid
  {
    hide RowidsDistinct, Candidates;
    forall k ensures k in RowsBetween(db, c.after, after) <==> k in Members(q[..n]) {
      if k in RowsBetween(db, c.after, after) {
        assert k in Ahead(db, c);
        if k !in q { BeyondCandidates(db, c, k, after); }
        assert k in q;
        var i :| 0 <= i < |q| && q[i] == k;
        assert i < n;
        assert q[..n][i] == k;
      }
      if k in q[..n] {
        var i :| 0 <= i < n && q[..n][i] == k;
        assert q[i] == k && k in q;
      }
    }
    forall i, j | 0 <= i < j < n ensures q[..n][i] != q[..n][j] { assert db.v1[q[i]].rowid < db.v1[q[j]].rowid; }
    DistinctMembers(q[..n]);
  }

  /** A pass takes at most four tuples of at most eight megabytes from at most 64 rows, counts the rows
      it went through, and stops short of a row only where a limit is met; it reports the end exactly
      when it met no limit and no row is left. */
  lemma PassFitsItsLimits(a: Db)
    requires Inv(a) && PreparePass(a).Some?
    ensures var pass := PreparePass(a).value;
            && |pass.tuples| <= 4 && pass.bytes == TotalBytes(pass.tuples) <= 8388608
            && pass.scanned == |RowsBetween(a, pass.checkpoint.after, pass.after)| <= 64
            && (forall k | FirstBeyond(a, pass.after, k) :: pass.scanned == 64 || NoRoom(a, pass.tuples, k))
            && (pass.end <==> pass.scanned < 64 && forall k | k in a.v1 :: a.v1[k].rowid <= pass.after)
  {
    hide Inv, Sorted, Limit, ScanTuples, Candidates, ScanFits, AscendingRows, RowidsDistinct, WellKeyed, Formats, FeedOrder, NoRoom,
      TotalBytes;
    InvIsFormats(a);
    var c := a.tiering.value;
    var q := Candidates(a, c);
    CandidatesAscend(a, c);
    RowsAreBelowUpper(a);
    NothingScanned(a, c.after);
    AscendingAreStored(a, q);
    var n := ScanStopsAt(a, q, Scan([], {}, c.after, 0));
    var pass := PreparePass(a).value;
    ScannedRows(a, c, q, n, pass.after);
    AscendingUpTo(a, q, n, pass.after);
    CountThroughIs(a, q, n, pass.after);
    CandidateCount(a, c);
    forall k | FirstBeyond(a, pass.after, k) ensures pass.scanned == 64 || NoRoom(a, pass.tuples, k) {
      if n < 64 { NextIsFirst(a, c, q, n, pass.after, k); }
    }
    EndsExactly(a, c, q, n, pass);
  }

  lemma RowsAreBelowUpper(a: Db)
    requires Inv(a) && a.tiering.Some?
    ensures forall k | k in a.v1 :: a.v1[k].rowid <= a.tiering.value.upper
  {
    assert Frontier(a);
  }

  lemma NothingScanned(a: Db, after: int)
    ensures ScanFits(a, Scan([], {}, after, 0)) && WithinLimits(Scan([], {}, after, 0))
  {
  }

  lemma AscendingAreStored(a: Db, q: seq<Key>)
    requires AscendingRows(a, q)
    ensures forall k | k in q :: k in a.v1
    ensures forall i | 0 <= i < |q| :: q[i] in a.v1
  {
  }

  lemma AscendingUpTo(a: Db, q: seq<Key>, n: nat, after: int)
    requires AscendingRows(a, q) && n <= |q| && (n > 0 ==> after == a.v1[q[n - 1]].rowid)
    ensures forall i | 0 <= i < n :: q[i] in a.v1 && a.v1[q[i]].rowid <= after
  {
    forall i | 0 <= i < n ensures q[i] in a.v1 && a.v1[q[i]].rowid <= after {
      if i < n - 1 { assert a.v1[q[i]].rowid < a.v1[q[n - 1]].rowid; }
    }
  }

  lemma CandidateCount(a: Db, c: Checkpoint)
    requires RowidsDistinct(a.v1)
    ensures |Candidates(a, c)| <= 64
    ensures |Candidates(a, c)| < 64 ==> forall k | k in Ahead(a, c) :: k in Candidates(a, c)
  {
    hide Sorted;
    CandidatesAreAhead(a, c);
    assert forall k | k in Ahead(a, c) :: k in Sorted(Ahead(a, c));
  }

  /** The first row beyond the cursor is the next candidate. */
  lemma NextIsFirst(a: Db, c: Checkpoint, q: seq<Key>, n: nat, after: int, k: Key)
    requires RowidsDistinct(a.v1) && (forall j | j in a.v1 :: a.v1[j].rowid <= c.upper) && q == Candidates(a, c) && AscendingRows(a, q)
    requires n <= |q| && n < 64 && c.after <= after && FirstBeyond(a, after, k)
    requires forall i | 0 <= i < n :: q[i] in a.v1 && a.v1[q[i]].rowid <= after
    requires |q| < 64 ==> forall j | j in Ahead(a, c) :: j in q
    requires after == (if n == 0 then c.after else a.v1[q[n - 1]].rowid)
    requires forall i | n <= i < |q| :: q[i] in a.v1 && after < a.v1[q[i]].rowid
    ensures n < |q| && q[n] == k
  {
    hide Candidates, Sorted, Limit;
    assert k in Ahead(a, c);
    if |q| < 64 {
      assert k in q;
      var i :| 0 <= i < |q| && q[i] == k;
      assert n <= i;
    }
    assert n < |q|;
    assert a.v1[k].rowid <= a.v1[q[n]].rowid;
    if a.v1[k].rowid < a.v1[q[n]].rowid {
      if k !in q { BeyondCandidates(a, c, k, a.v1[q[n]].rowid); }
    }
  }

  lemma EndsExactly(a: Db, c: Checkpoint, q: seq<Key>, n: nat, pass: Pass)
    requires RowidsDistinct(a.v1) && (forall j | j in a.v1 :: a.v1[j].rowid <= c.upper) && q == Candidates(a, c) && AscendingRows(a, q)
    requires (forall k | k in q :: k in a.v1 && c.after < a.v1[k].rowid) && n <= |q| <= 64
    requires pass.after == (if n == 0 then c.after else a.v1[q[n - 1]].rowid)
    requires forall i | n <= i < |q| :: pass.after < a.v1[q[i]].rowid
    requires |q| < 64 ==> forall j | j in Ahead(a, c) :: j in q
    requires pass.end == (|q| < PASS_ROWS && pass.after == if q == [] then c.after else a.v1[q[|q| - 1]].rowid)
    ensures pass.end <==> n < 64 && forall k | k in a.v1 :: a.v1[k].rowid <= pass.after
  {
    hide Candidates, Sorted, Limit, RowidsDistinct;
    if n < |q| {
      assert q[n] in a.v1 && pass.after < a.v1[q[n]].rowid && q[|q| - 1] in q;
      assert pass.after < a.v1[q[|q| - 1]].rowid;
    } else if n < 64 {
      assert c.after <= pass.after by { if n > 0 { assert q[n - 1] in q; } }
      forall k | k in a.v1 ensures a.v1[k].rowid <= pass.after {
        assert pass.after < a.v1[k].rowid ==> k in Ahead(a, c);
      }
    }
  }

  // ----- what a commit counts -----

  predicate IsUnchanged(db: Db, t: PassTuple) { TakeSnapshot(db, t.ref) == t.snapshot }

  /** How many tuples have changed since they were scanned, and what the others held in version 1. */
  function Changed(db: Db, ts: seq<PassTuple>): nat {
    if ts == [] then 0 else (if IsUnchanged(db, ts[0]) then 0 else 1) + Changed(db, ts[1..])
  }

  function UnchangedBytes(db: Db, ts: seq<PassTuple>): nat {
    if ts == [] then 0
    else (if IsUnchanged(db, ts[0]) then LegacyBytes(ts[0].snapshot, ts[0].ref) else 0) + UnchangedBytes(db, ts[1..])
  }

  lemma {:induction false} SameTuplesCount(a: Db, b: Db, ts: seq<PassTuple>)
    requires forall t | t in ts :: TakeSnapshot(a, t.ref) == TakeSnapshot(b, t.ref)
    ensures Changed(a, ts) == Changed(b, ts) && UnchangedBytes(a, ts) == UnchangedBytes(b, ts)
  {
    hide TakeSnapshot, LegacyBytes;
    if ts != [] {
      assert ts[0] in ts;
      SameTuplesCount(a, b, ts[1..]);
    }
  }

  lemma CommitTupleCounts(p: Progress, t: PassTuple)
    requires Inv(p.db)
    ensures var q := CommitTuple(p, t);
            && q.migrated - p.migrated == |p.db.v1| - |q.db.v1|
            && q.conflicts - p.conflicts == (if IsUnchanged(p.db, t) then 0 else 1)
            && q.moved - p.moved == (if IsUnchanged(p.db, t) then LegacyBytes(t.snapshot, t.ref) else 0)
  {
    hide TakeSnapshot, Inv, Conflicts, Agreement, Sourced, FeedOrder, WellKeyed, RowidsDistinct, Formats, Remember, Detach, LegacyBytes,
      Legacy, AnswersOnly, Detached;
    InvIsFormats(p.db);
    InvIsParts(p.db);
    assert Agreement(p.db) by { InvIsAgreeing(p.db); }
    ConflictsExactlyWhenChanged(p.db, t);
    if IsUnchanged(p.db, t) {
      var m := Remember(p.db, t.ref);
      RememberedIsKept(p.db, t.ref);
      AnswersOnlySnapshot(p.db, m, t.ref);
      assert m.v1 == p.db.v1 && WellKeyed(m) by { AnswersOnlyElsewhere(p.db, m); SameKeys(p.db, m); }
      DetachIsDetached(m, t.ref);
      SnapshotLegacy(m, t.ref);
      DetachedSize(m, Detach(m, t.snapshot), Legacy(t.snapshot));
    }
  }

  lemma InvIsAgreeing(db: Db)
    requires Inv(db)
    ensures Agreement(db)
  {
  }

  lemma SameKeys(a: Db, b: Db)
    requires AnswersOnly(a, b)
    ensures WellKeyed(a) ==> WellKeyed(b)
  {
  }

  lemma DetachedSize(db: Db, u: Db, moved: set<Key>)
    requires Detached(db, u, moved)
    ensures |u.v1| == |db.v1| - |moved|
  {
    assert moved <= db.v1.Keys && u.v1 == db.v1 - moved;
    hide Detached;
    MinusSize(db.v1, moved);
  }

  lemma MinusSize<K, V>(m: map<K, V>, gone: set<K>)
    requires gone <= m.Keys
    ensures |m - gone| == |m| - |gone|
  {
    assert (m - gone).Keys == m.Keys - gone;
    assert |m - gone| == |(m - gone).Keys| && |m| == |m.Keys|;
    assert |m.Keys - gone| == |m.Keys| - |gone| by { assert m.Keys == (m.Keys - gone) + gone; }
  }

  lemma {:induction false} CommitTuplesCount(p: Progress, ts: seq<PassTuple>)
    requires Inv(p.db) && p.db.format.V2? && (forall t | t in ts :: TupleBodiesStored(p.db, t)) && RefsDistinct(ts)
    ensures var q := CommitTuples(p, ts);
            && q.migrated - p.migrated == |p.db.v1| - |q.db.v1|
            && q.conflicts - p.conflicts == Changed(p.db, ts)
            && q.moved - p.moved == UnchangedBytes(p.db, ts)
    decreases |ts|
  {
    hide Inv, Evolves, CommitTuple, SameViews, TupleBodiesStored, TakeSnapshot, IsUnchanged, LegacyBytes, WellKeyed, RowidsDistinct,
      Formats, FeedOrder;
    if ts != [] {
      var v := CommitTuple(p, ts[0]);
      assert ts[0] in ts;
      CommitTupleKeeps(p, ts[0]);
      CommitTupleCounts(p, ts[0]);
      SameViewsElsewhere(p.db, v.db);
      InvIsFormats(p.db);
      forall t | t in ts[1..] ensures TupleBodiesStored(v.db, t) && TakeSnapshot(v.db, t.ref) == TakeSnapshot(p.db, t.ref) {
        assert TupleBodiesStored(p.db, t);
        BucketKeepsBodies(p.db, v.db, t);
        var i :| 0 <= i < |ts[1..]| && ts[1..][i] == t;
        assert ts[i + 1] == t;
        CommitTupleElsewhere(p, ts[0], t.ref);
      }
      SameTuplesCount(v.db, p.db, ts[1..]);
      CommitTuplesCount(v, ts[1..]);
    }
  }

  /** A commit books what it did: the rows that left version 1, their bytes, the tuples that had
      changed, and the rows its scan went through. The first conflict of a round records where to start
      again, which the pass that ends the round does. */
  lemma CommitCountsExactly(db: Db, pass: Pass, now: int)
    requires Inv(db) && PassIsCurrent(db, pass) && !MarkedComplete(pass.checkpoint)
    requires PassBodies(pass) <= db.bucket && RefsDistinct(pass.tuples)
    ensures var u := CommitPass(db, pass, now);
            u.tiering.Some? &&
            var c, d := pass.checkpoint, u.tiering.value;
            && d.migrated - c.migrated == |db.v1| - |u.v1|
            && d.sourceBytes - c.sourceBytes == UnchangedBytes(db, pass.tuples)
            && d.conflicts - c.conflicts == Changed(db, pass.tuples)
            && d.scanned - c.scanned == pass.scanned
            && d.completedAt == (if u.v1 == map[] && u.chunks == map[] then Some(now) else None)
            && (var restart := if Changed(db, pass.tuples) > 0 && c.deferred.None? then Some(c.after) else c.deferred;
                && d.deferred == (if pass.end then None else restart)
                && d.after == if pass.end && d.completedAt.None? then (if restart.Some? then restart.value else 0) else pass.after)
            && d.plan == c.plan && d.upper == c.upper && d.startedAt == c.startedAt
  {
    hide Inv, CommitTuples, TupleBodiesStored, PassBodies, Changed, UnchangedBytes, RefsDistinct;
    PassBodiesStored(db, pass);
    CommitTuplesCount(Progress(db, 0, 0, 0), pass.tuples);
  }
}

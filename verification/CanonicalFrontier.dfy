/** The migration cursor loses no row, completes only when nothing is left, and drains. */
module CanonicalFrontier {
  import opened Ordering
  import opened CanonicalTables
  import opened CanonicalTransactions
  import opened CanonicalInvariant
  import opened CanonicalEvolution
  import opened CanonicalMigration

  // ----- what a scan covers -----

  ghost predicate AscendingRows(db: Db, q: seq<Key>) {
    && (forall k | k in q :: k in db.v1)
    && (forall i, j | 0 <= i < j < |q| :: db.v1[q[i]].rowid < db.v1[q[j]].rowid)
  }

  ghost function Refs(ts: seq<PassTuple>): set<ItemRef> {
    set t | t in ts :: t.ref
  }

  ghost predicate FromState(db: Db, ts: seq<PassTuple>) {
    forall t | t in ts :: t.snapshot == TakeSnapshot(db, t.ref)
  }

  ghost predicate RefsDistinct(ts: seq<PassTuple>) {
    forall i, j | 0 <= i < j < |ts| :: ts[i].ref != ts[j].ref
  }

  ghost predicate ScanFits(db: Db, s: Scan) {
    s.seen == Refs(s.tuples) && FromState(db, s.tuples) && RefsDistinct(s.tuples)
  }

  lemma ScanRowFacts(db: Db, k: Key, s: Scan)
    requires k in db.v1 && ScanFits(db, s) && ScanRow(db, k, s).Go?
    ensures var next := ScanRow(db, k, s).next;
            && ScanFits(db, next) && next.after == db.v1[k].rowid
            && s.seen <= next.seen && RefOf(k) in next.seen && s.tuples <= next.tuples
  {
    hide TakeSnapshot, Migratable, LegacyBytes;
    var ref := RefOf(k);
    var next := ScanRow(db, k, s).next;
    if ref !in s.seen {
      forall i | 0 <= i < |s.tuples| ensures s.tuples[i].ref != ref {
        assert s.tuples[i] in s.tuples;
      }
      var t := PassTuple(ref, TakeSnapshot(db, ref));
      assert next.tuples == s.tuples + [t];
      assert Refs(next.tuples) == Refs(s.tuples) + {ref};
    }
  }

  lemma AscendingTail(db: Db, q: seq<Key>)
    requires AscendingRows(db, q) && q != []
    ensures AscendingRows(db, q[1..])
    ensures forall j | j in q[1..] :: db.v1[q[0]].rowid < db.v1[j].rowid
    ensures forall j | j in q :: j == q[0] || j in q[1..]
  {
    forall j | j in q[1..] ensures db.v1[q[0]].rowid < db.v1[j].rowid {
      var i :| 0 <= i < |q[1..]| && q[1..][i] == j;
      assert q[i + 1] == j;
    }
  }

  /** Every candidate up to the cursor a scan returns belongs to a tuple it took. */
  lemma {:induction false} ScanCovers(db: Db, q: seq<Key>, s: Scan)
    requires forall k | k in q :: k in db.v1
    requires AscendingRows(db, q) && ScanTuples(db, q, s).Some? && ScanFits(db, s)
    requires forall k | k in q :: s.after < db.v1[k].rowid
    ensures var r := ScanTuples(db, q, s).value;
            && r.after >= s.after
            && (r.after == s.after || exists k | k in q :: r.after == db.v1[k].rowid)
            && ScanFits(db, r) && s.seen <= r.seen && s.tuples <= r.tuples
            && (forall k | k in q && db.v1[k].rowid <= r.after :: RefOf(k) in r.seen)
    decreases |q|
  {
    hide ScanRow, AscendingRows, ScanFits;
    if q != [] && ScanRow(db, q[0], s).Go? {
      var next := ScanRow(db, q[0], s).next;
      AscendingTail(db, q);
      ScanRowFacts(db, q[0], s);
      ScanCovers(db, q[1..], next);
    }
  }

  lemma CandidatesAreAhead(db: Db, c: Checkpoint)
    requires RowidsDistinct(db.v1)
    ensures forall k | k in Candidates(db, c) :: k in Ahead(db, c)
    ensures Candidates(db, c) == Limit(Sorted(Ahead(db, c)), PASS_ROWS)
    ensures Distinct(Ahead(db, c))
  {
    hide Sorted, Limit;
    var all := Sorted(Ahead(db, c));
    assert forall k | k in Limit(all, PASS_ROWS) :: k in all;
  }

  lemma CandidatesAscend(db: Db, c: Checkpoint)
    requires RowidsDistinct(db.v1)
    ensures AscendingRows(db, Candidates(db, c))
    ensures forall k | k in Candidates(db, c) :: c.after < db.v1[k].rowid <= c.upper
    ensures Ahead(db, c) != map[] ==> Candidates(db, c) != []
  {
    hide Sorted, Limit, RowidsDistinct, Distinct, Candidates;
    CandidatesAreAhead(db, c);
    var ahead := Ahead(db, c);
    var q := Candidates(db, c);
    forall i, j | 0 <= i < j < |q| ensures db.v1[q[i]].rowid < db.v1[q[j]].rowid {
      SortedAscends(ahead, i, j);
    }
    if ahead != map[] {
      assert |ahead| > 0;
    }
  }

  /** A row ahead of the cursor but not among the candidates lies beyond all of them. */
  lemma BeyondCandidates(db: Db, c: Checkpoint, k: Key, after: int)
    requires RowidsDistinct(db.v1) && k in Ahead(db, c) && k !in Candidates(db, c)
    requires after == c.after || exists j | j in Candidates(db, c) :: after == db.v1[j].rowid
    ensures after < db.v1[k].rowid
  {
    hide Sorted, Limit, Candidates;
    CandidatesAreAhead(db, c);
    if after != c.after {
      var j :| j in Candidates(db, c) && after == db.v1[j].rowid;
      LimitKeepsTheLeast(Ahead(db, c), PASS_ROWS, j, k);
    }
  }

  /** A pass covers every version 1 row between the old cursor and its new one. */
  lemma PassCovers(a: Db)
    requires RowidsDistinct(a.v1) && PreparePass(a).Some?
    ensures var pass := PreparePass(a).value;
            && a.format.V2? && a.tiering == Some(pass.checkpoint)
            && pass.after >= pass.checkpoint.after
            && FromState(a, pass.tuples) && RefsDistinct(pass.tuples)
            && (forall k | k in a.v1 && pass.checkpoint.after < a.v1[k].rowid <= pass.after && a.v1[k].rowid <= pass.checkpoint.upper ::
                  RefOf(k) in Refs(pass.tuples))
  {
    hide ScanTuples, Candidates, AscendingRows;
    var c := a.tiering.value;
    var q := Candidates(a, c);
    var s := Scan([], {}, c.after, 0);
    CandidatesAscend(a, c);
    ScanCovers(a, q, s);
    var r := ScanTuples(a, q, s).value;
    forall k | k in a.v1 && c.after < a.v1[k].rowid <= r.after && a.v1[k].rowid <= c.upper
      ensures RefOf(k) in r.seen
    {
      assert k in Ahead(a, c);
      if k !in q {
        BeyondCandidates(a, c, k, r.after);
      }
    }
  }

  // ----- committing a pass -----

  /** The pass was scanned in an earlier state, and its bodies have been stored since. */
  ghost predicate PassFrom(a: Db, db: Db, pass: Pass) {
    && RowidsDistinct(a.v1) && PreparePass(a) == Some(pass)
    && Shrinks(a, db)
    && PassBodies(pass) <= db.bucket
  }

  lemma PassBodiesStored(db: Db, pass: Pass)
    requires PassBodies(pass) <= db.bucket
    ensures forall t | t in pass.tuples :: TupleBodiesStored(db, t)
  {
    forall t, k | t in pass.tuples && k in Legacy(t.snapshot) && t.snapshot.rows[k].meta.digest.Some?
      ensures t.snapshot.rows[k].meta.digest.value in db.bucket
    {
      assert t.snapshot.rows[k].meta.digest.value in PassBodies(pass);
    }
  }

  ghost function Committed(db: Db, pass: Pass): Progress {
    CommitTuples(Progress(db, 0, 0, 0), pass.tuples)
  }

  /** Without a conflict, nothing behind the pass's cursor is left. */
  lemma CommittedBehindCursor(a: Db, db: Db, pass: Pass)
    requires Inv(db) && PassFrom(a, db, pass) && PassIsCurrent(db, pass)
    ensures var p := Committed(db, pass);
            p.conflicts == 0 ==> forall k | k in p.db.v1 :: !(pass.checkpoint.after < p.db.v1[k].rowid <= pass.after)
  {
    hide Inv, CommitTuples, Evolves, SameViews, TupleBodiesStored, PreparePass, PassBodies;
    PassCovers(a);
    PassBodiesStored(db, pass);
    CommitTuplesKeep(Progress(db, 0, 0, 0), pass.tuples);
    FrontierRows(db);
    var p := Committed(db, pass);
    if p.conflicts == 0 {
      forall k | k in p.db.v1 ensures !(pass.checkpoint.after < p.db.v1[k].rowid <= pass.after) {
        assert k in db.v1 && k in a.v1 && a.v1[k].rowid == p.db.v1[k].rowid;
        assert forall t | t in pass.tuples :: RefOf(k) != t.ref;
        assert RefOf(k) !in Refs(pass.tuples);
      }
    }
  }

  lemma FrontierRows(db: Db)
    requires Inv(db) && db.tiering.Some?
    ensures forall k | k in db.v1 :: 1 <= db.v1[k].rowid <= db.tiering.value.upper
    ensures var c := db.tiering.value;
            && 0 <= c.after && (c.deferred.Some? ==> 0 <= c.deferred.value <= c.after)
            && (forall k | k in db.v1 && db.v1[k].rowid <= c.after :: c.deferred.Some? && c.deferred.value < db.v1[k].rowid)
  {
  }

  ghost function AfterCommit(db: Db, pass: Pass, now: int): Db {
    var p := Committed(db, pass);
    p.db.(tiering := Some(NextCheckpoint(pass.checkpoint, pass, p, now)))
  }

  lemma CommitKeepsFrontier(a: Db, db: Db, pass: Pass, now: int)
    requires Inv(db) && PassFrom(a, db, pass) && PassIsCurrent(db, pass)
    ensures Frontier(AfterCommit(db, pass, now))
  {
    hide Inv, CommitTuples, Evolves, SameViews, TupleBodiesStored, PreparePass, PassBodies, Shrinks;
    CommittedBehindCursor(a, db, pass);
    PassCovers(a);
    FrontierRows(db);
    PassBodiesStored(db, pass);
    CommitTuplesKeep(Progress(db, 0, 0, 0), pass.tuples);
  }

  ghost predicate CheckpointOnly(a: Db, b: Db) { b == a.(tiering := b.tiering) }

  lemma CheckpointKeepsInv(a: Db, b: Db)
    requires Inv(a) && CheckpointOnly(a, b) && a.format.V2? && b.tiering.Some? && Frontier(b)
    ensures Inv(b)
  {
    assert Formats(b);
    hide Inv, Frontier, Formats, ReceiptsFit, ReceiptsUnique;
    SameTablesReceipts(a, b);
    SameStoreKeepsInv(a, b);
  }

  lemma SameTablesReceipts(a: Db, b: Db)
    requires Inv(a) && SameStore(a, b) && b.receipts == a.receipts
    ensures ReceiptsFit(b) && ReceiptsUnique(b)
  {
    SameTablesRevisions(a, b);
    hide TupleRevision, ReceiptsFit, ReceiptsUnique;
    SameReceiptsKeepUnique(a, b);
    RaisedTuplesKeepFit(a, b);
  }

  lemma SameTablesRevisions(a: Db, b: Db)
    requires SameStore(a, b)
    ensures forall ref :: TupleRevision(b, ref) == TupleRevision(a, ref)
  {
  }

  lemma CheckpointEvolves(a: Db, b: Db)
    requires CheckpointOnly(a, b)
    ensures Evolves(a, b)
  {
    hide EvidenceAt, TupleRevision;
    forall ref | Answered(a, ref) ensures Answered(b, ref) {
      SameEvidence(a, b, KeyOf(ref, Items));
      SameEvidence(a, b, KeyOf(ref, Closed));
    }
  }

  /** A commit keeps the invariant, undoes nothing, and changes neither the read view nor the
      export index, whatever was written between scan and commit. */
  lemma CommitKeeps(a: Db, db: Db, pass: Pass, now: int)
    requires Inv(db) && PassFrom(a, db, pass)
    ensures Inv(CommitPass(db, pass, now)) && Evolves(db, CommitPass(db, pass, now)) && SameViews(db, CommitPass(db, pass, now))
  {
    hide Inv, CommitTuples, Evolves, SameViews, TupleBodiesStored, PassFrom, NextCheckpoint;
    EvolvesItself(db);
    SameViewsItself(db);
    if PassIsCurrent(db, pass) && !MarkedComplete(pass.checkpoint) {
      var p := Committed(db, pass);
      var u := AfterCommit(db, pass, now);
      assert PassBodies(pass) <= db.bucket by { PassFromBodies(a, db, pass); }
      PassBodiesStored(db, pass);
      CommitTuplesKeep(Progress(db, 0, 0, 0), pass.tuples);
      CommitKeepsFrontier(a, db, pass, now);
      SameViewsElsewhere(db, p.db);
      CheckpointKeepsInv(p.db, u);
      CheckpointEvolves(p.db, u);
      InvIsFormats(db);
      EvolvesTransitive(db, p.db, u);
      CheckpointSameViews(p.db, u);
      SameViewsTransitive(db, p.db, u);
    }
  }

  lemma PassFromBodies(a: Db, db: Db, pass: Pass)
    requires PassFrom(a, db, pass)
    ensures PassBodies(pass) <= db.bucket
  {
  }

  lemma CheckpointSameViews(a: Db, b: Db)
    requires CheckpointOnly(a, b)
    ensures SameViews(a, b)
  {
  }

  /** Completion is recorded exactly when both version 1 tables are empty. */
  lemma CompletionMeansDrained(db: Db, pass: Pass, now: int)
    requires PassIsCurrent(db, pass) && !MarkedComplete(pass.checkpoint)
    ensures CommitPass(db, pass, now).tiering.value.completedAt.Some? <==> Drained(CommitPass(db, pass, now))
  {
    hide CommitTuples;
  }

  // ----- activation -----

  lemma ActivateKeeps(db: Db, plan: string, now: int)
    requires Inv(db)
    ensures Inv(Activate(db, plan, now)) && Evolves(db, Activate(db, plan, now))
  {
    var u := Activate(db, plan, now);
    if u == db {
      hide Inv, Evolves;
      EvolvesItself(db);
    } else {
      ActivatedIsConsistent(db, u, plan, now);
      ActivatedEvolves(db, u, plan, now);
    }
  }

  ghost predicate Activated(db: Db, u: Db, plan: string, now: int) {
    && db.format.V1?
    && u == db.(format := V2, tiering := Some(Checkpoint(plan, MaxRowid(db.v1), 0, None, 0, 0, 0, 0, now, None)))
  }

  lemma ActivatedIsConsistent(db: Db, u: Db, plan: string, now: int)
    requires Inv(db) && Activated(db, u, plan, now)
    ensures Inv(u)
  {
    hide MaxRowid;
    assert Formats(u) && Frontier(u) by { RowidsArePositive(db); }
    hide Inv, Frontier, Formats, ReceiptsFit, ReceiptsUnique;
    SameTablesReceipts(db, u);
    SameStoreKeepsInv(db, u);
  }

  lemma RowidsArePositive(db: Db)
    requires Inv(db)
    ensures forall k | k in db.v1 :: db.v1[k].rowid >= 1
  {
  }

  lemma ActivatedEvolves(db: Db, u: Db, plan: string, now: int)
    requires Activated(db, u, plan, now)
    ensures Evolves(db, u)
  {
    hide EvidenceAt, TupleRevision, MaxRowid;
    forall ref | Answered(db, ref) ensures Answered(u, ref) {
      SameEvidence(db, u, KeyOf(ref, Items));
      SameEvidence(db, u, KeyOf(ref, Closed));
    }
  }
}

/** The canonical record store: each public method is one transaction over the tables, and does
    to them exactly what the transaction of the same name says. A method that reports an error
    has rolled its changes back. */
module CanonicalStore {
  import opened Ordering
  import opened CanonicalTables
  import opened CanonicalTransactions
  import opened CanonicalInvariant
  import opened CanonicalMigration
  import opened ExportFeed

  const TUPLE_SECTIONS: seq<Section> := [Items, Closed, Plans, Packets]

  const SHADOW_LIMIT := 64

  ghost predicate ImportRowidsDistinct(imports: map<Key, ImportRow>) {
    forall j, k | j in imports && k in imports && imports[j].rowid == imports[k].rowid :: j == k
  }

  function ShadowCandidates(db: Db, after: int, upper: int): map<Key, Rank> {
    map k | k in db.imports && after < db.imports[k].rowid <= upper :: Rank(db.imports[k].rowid, 0, 0)
  }

  /** The next imports a sweep looks at. */
  function ShadowRows(db: Db, after: int, upper: int): (rows: seq<Key>)
    requires ImportRowidsDistinct(db.imports)
    ensures |rows| <= SHADOW_LIMIT && forall k | k in rows :: k in db.imports && after < db.imports[k].rowid <= upper
  {
    hide Sorted;
    var all := Sorted(ShadowCandidates(db, after, upper));
    assert forall k | k in Limit(all, SHADOW_LIMIT) :: k in all;
    Limit(all, SHADOW_LIMIT)
  }

  // ----- one row at a time -----

  /** Detaching just the rows in `keys`. */
  ghost function DetachOnly(db: Db, s: Snapshot, keys: set<Key>): Db
    requires keys <= s.rows.Keys
  {
    db.(v2 := db.v2 + (map k | k in keys :: s.rows[k].meta), v1 := db.v1 - keys, chunks := db.chunks - keys)
  }

  lemma DetachOneMore(db: Db, s: Snapshot, keys: set<Key>, k: Key)
    requires keys <= s.rows.Keys && k in s.rows
    ensures var u := DetachOnly(db, s, keys);
            u.(v2 := u.v2[k := s.rows[k].meta], v1 := u.v1 - {k}, chunks := u.chunks - {k}) == DetachOnly(db, s, keys + {k})
  {
    assert DetachOnly(db, s, keys).v2[k := s.rows[k].meta] == DetachOnly(db, s, keys + {k}).v2;
    LessOneMore(db.v1, keys, k);
    LessOneMore(db.chunks, keys, k);
  }

  lemma LessOneMore<V>(m: map<Key, V>, keys: set<Key>, k: Key)
    ensures m - keys - {k} == m - (keys + {k})
  {
  }

  lemma DetachNone(db: Db, s: Snapshot)
    ensures DetachOnly(db, s, {}) == db
    ensures Legacy(s) <= s.rows.Keys && DetachOnly(db, s, Legacy(s)) == Detach(db, s)
  {
    assert DetachOnly(db, s, {}).v2 == db.v2 && DetachOnly(db, s, {}).v1 == db.v1 && DetachOnly(db, s, {}).chunks == db.chunks;
  }

  ghost function KeysThrough(ref: ItemRef, n: nat): set<Key>
    requires n <= 4
  {
    set i | 0 <= i < n :: KeyOf(ref, TUPLE_SECTIONS[i])
  }

  ghost function BytesThrough(s: Snapshot, ref: ItemRef, n: nat): nat
    requires n <= 4
  {
    if n == 0 then 0 else BytesThrough(s, ref, n - 1) + LegacySize(s, KeyOf(ref, TUPLE_SECTIONS[n - 1]))
  }

  lemma AllSections(s: Snapshot, ref: ItemRef)
    ensures KeysThrough(ref, 4) == TupleKeys(ref)
    ensures BytesThrough(s, ref, 4) == LegacyBytes(s, ref)
  {
    forall k | k in TupleKeys(ref) ensures k in KeysThrough(ref, 4) {
      assert k == KeyOf(ref, TUPLE_SECTIONS[0]) || k == KeyOf(ref, TUPLE_SECTIONS[1])
        || k == KeyOf(ref, TUPLE_SECTIONS[2]) || k == KeyOf(ref, TUPLE_SECTIONS[3]);
    }
    assert BytesThrough(s, ref, 1) == LegacySize(s, KeyOf(ref, Items));
    assert BytesThrough(s, ref, 2) == BytesThrough(s, ref, 1) + LegacySize(s, KeyOf(ref, Closed));
    assert BytesThrough(s, ref, 3) == BytesThrough(s, ref, 2) + LegacySize(s, KeyOf(ref, Plans));
    assert BytesThrough(s, ref, 4) == BytesThrough(s, ref, 3) + LegacySize(s, KeyOf(ref, Packets));
  }

  lemma NextSection(ref: ItemRef, n: nat)
    requires n < 4
    ensures KeysThrough(ref, n + 1) == KeysThrough(ref, n) + {KeyOf(ref, TUPLE_SECTIONS[n])}
    ensures KeyOf(ref, TUPLE_SECTIONS[n]) !in KeysThrough(ref, n)
  {
    forall i | 0 <= i < n ensures TUPLE_SECTIONS[i] != TUPLE_SECTIONS[n] {}
  }

  class Store {
    var storage: Db

    constructor ()
      ensures storage == EMPTY
    {
      storage := EMPTY;
    }

    /** Answers from the table, or from the evidence, which it then remembers. */
    method HasCompletedPullRequestReview(ref: ItemRef) returns (answered: bool)
      modifies this
      ensures answered == Answered(old(storage), ref)
      ensures storage == Remember(old(storage), ref)
    {
      hide EvidenceAt;
      if ref in storage.answers {
        return storage.answers[ref];
      }
      answered := false;
      var stale := false;
      var sections := [Items, Closed];
      var i := 0;
      while i < |sections| && !answered
        invariant 0 <= i <= 2 && storage == old(storage)
        invariant answered <==> exists j | 0 <= j < i :: EvidenceAt(storage, KeyOf(ref, sections[j])).Answers?
        invariant stale <==> exists j | 0 <= j < i :: EvidenceAt(storage, KeyOf(ref, sections[j])).StaleSource?
      {
        var evidence := EvidenceAt(storage, KeyOf(ref, sections[i]));
        answered := evidence.Answers?;
        stale := stale || evidence.StaleSource?;
        i := i + 1;
      }
      assert sections[0] == Items && sections[1] == Closed;
      if answered || stale {
        storage := storage.(answers := storage.answers[ref := answered]);
      }
    }

    method NextExportRevision() returns (revision: int)
      modifies this
      ensures revision == old(storage).exportRevision + 1
      ensures storage == old(storage).(exportRevision := revision)
    {
      revision := storage.exportRevision + 1;
      storage := storage.(exportRevision := revision);
    }

    /** One row of a tuple, its export pointer, and its import, in that order. */
    method WriteCanonicalOperation(op: Op, w: Writer) returns (ok: bool)
      requires w.credit.None?
      modifies this
      ensures ok <==> WriteOp(old(storage), op, w).Some?
      ensures ok ==> Some(storage) == WriteOp(old(storage), op, w)
    {
      hide Remember, NewRowid, Answered;
      if Primary(op.section) {
        var _ := HasCompletedPullRequestReview(w.ref);
      }
      var k := KeyOf(w.ref, op.section);
      var body := Payload(op);
      var meta := Meta(DigestOf(body), w.revision, w.owner, w.generation, w.now);
      ghost var seeded := storage;
      assert seeded.format == old(storage).format by { RememberKeepsFormat(old(storage), w.ref); }
      if storage.format.V2? {
        if body.Some? && Sha256(body.value) !in w.prepared {
          return false;
        }
        storage := storage.(v2 := storage.v2[k := meta]);
        storage := storage.(v1 := storage.v1 - {k}, chunks := storage.chunks - {k});
      } else {
        storage := storage.(chunks := storage.chunks - {k});
        storage := storage.(v1 := storage.v1[k := V1Row(NewRowid(storage.v1, k), if Chunked(body) then None else body, meta)]);
        if Chunked(body) {
          storage := storage.(chunks := storage.chunks[k := body.value]);
          assert storage.chunks == seeded.chunks[k := body.value];
        }
      }
      var revision := NextExportRevision();
      storage := storage.(exports := storage.exports[k := ExportRow(meta.digest, meta.revision, revision, false, meta.updatedAt)]);
      storage := storage.(imports := storage.imports - {k});
      assert storage == Place(seeded, k, body, meta);
      return true;
    }

    /** Remembers what the expired receipts prove, then deletes them. */
    method PruneTerminal(now: int)
      modifies this
      ensures storage == Prune(old(storage), now)
    {
      hide Remember, Expired, Answered;
      var expired := Expired(storage, now);
      var i := 0;
      while i < |expired|
        invariant 0 <= i <= |expired|
        invariant storage.receipts == old(storage).receipts
        invariant RememberEach(storage, expired[i..]) == RememberEach(old(storage), expired)
      {
        var receipt := expired[i];
        assert expired[i..][1..] == expired[i + 1..];
        if receipt in storage.receipts && storage.receipts[receipt].state.Published? {
          RememberKeepsReceipts(storage, OwnerRef(storage.receipts[receipt].target));
          var _ := HasCompletedPullRequestReview(OwnerRef(storage.receipts[receipt].target));
        }
        i := i + 1;
      }
      storage := storage.(receipts := storage.receipts - Members(expired));
    }

    method Accept(plan: Plan, now: int, prepared: set<Digest>) returns (verdict: Verdict)
      modifies this
      ensures Accepting(storage, verdict) == AcceptPlan(old(storage), plan, now, prepared)
    {
      hide Prune, WriteOp, TupleOps, TupleRevision, SamePayload, StoredOps, NewerRetained;
      var ops := TupleOps(plan.ops);
      if ops.None? {
        return InvalidTuple;
      }
      var saved := storage;
      PruneTerminal(now);
      var key := ReceiptKey(plan.fence, plan.revision);
      if key in storage.receipts {
        var existing := storage.receipts[key];
        if !existing.state.Terminal() {
          storage := storage.(receipts := storage.receipts - {key});
        } else if !SamePayload(existing, plan) {
          storage := saved;
          return ConflictingRetry;
        } else {
          return if existing.state.Superseded? then SupersededPlan else Deduped;
        }
      }
      ghost var open := storage;
      assert open == Drop(Prune(saved, now), {key});
      if NewerRetained(storage, plan.fence, plan.revision) {
        storage := storage.(receipts := storage.receipts[key := ReceiptOf(plan, Superseded, now, None)]);
        return SupersededPlan;
      }
      var revision := Max(plan.revision, TupleRevision(storage, plan.Ref()) + 1);
      var w := PlanWriter(plan, now, revision, prepared);
      var ok := WriteOperations(ops.value, w);
      if !ok {
        storage := saved;
        return BodyUnavailable;
      }
      storage := storage.(receipts := storage.receipts[key := ReceiptOf(plan, Published, now, Some(revision))]);
      return Accepted(revision);
    }

    /** Every file of a tuple; a review publication also settles its answer, file by file. */
    method WriteOperations(ops: seq<Op>, w: Writer) returns (ok: bool)
      modifies this
      ensures ok <==> WriteAll(old(storage), ops, w).Some?
      ensures ok ==> Some(storage) == WriteAll(old(storage), ops, w)
    {
      hide WriteOp;
      var i := 0;
      while i < |ops|
        invariant 0 <= i <= |ops|
        invariant WriteAll(storage, ops[i..], w) == WriteAll(old(storage), ops, w)
      {
        assert ops[i..][1..] == ops[i + 1..];
        CreditComesLast(storage, ops[i], w);
        var wrote := WriteCanonicalOperation(ops[i], w.(credit := None));
        if !wrote {
          return false;
        }
        if w.credit.Some? && Primary(ops[i].section) && ops[i].content.Some? && ops[i].content.value.completesReview {
          storage := storage.(
          answers := storage.answers[w.ref := w.credit.value || (w.ref in storage.answers && storage.answers[w.ref])]);
        }
        i := i + 1;
      }
      return true;
    }

    method AcceptCanonicalTupleMutation(m: Mutation, now: int, prepared: set<Digest>) returns (verdict: MoveVerdict)
      modifies this
      ensures Moving(storage, verdict) == MoveTuple(old(storage), m, now, prepared)
    {
      hide WriteOp, TupleRevision, StoredOps, CurrentDigest, ExpectedDigest;
      var saved := storage;
      storage := storage.(
      deliveries := storage.deliveries - Members(Limit(Sorted(DeliveryAges(storage, now - RETENTION_MS)), PRUNE_LIMIT)));
      ghost var pruned := storage;
      assert pruned == PruneDeliveries(saved, now);
      hide PruneDeliveries;
      var bound := Fingerprint(m.Ref(), StoredOps(m.ops), m.expected);
      if m.delivery in storage.deliveries {
        var receipt := storage.deliveries[m.delivery];
        if receipt.bound != bound {
          storage := saved;
          return BoundElsewhere;
        }
        return MoveDeduped(receipt.revision);
      }
      var i := 0;
      while i < |m.ops|
        invariant 0 <= i <= |m.ops| && storage == pruned
        invariant forall j | 0 <= j < i ::
                    CurrentDigest(storage, KeyOf(m.Ref(), m.ops[j].section)) == ExpectedDigest(m, m.ops[j].section)
      {
        if CurrentDigest(storage, KeyOf(m.Ref(), m.ops[i].section)) != ExpectedDigest(m, m.ops[i].section) {
          storage := saved;
          assert m.ops[i] in m.ops;
          return TupleChanged;
        }
        i := i + 1;
      }
      assert Unchanged(pruned, m);
      var revision := TupleRevision(storage, m.Ref()) + 1;
      var w := Writer(m.Ref(), Reconciler(m.repo, m.id), 1, now, revision, prepared, None);
      var ok := WriteOperations(m.ops, w);
      if !ok {
        storage := saved;
        return MoveUnavailable;
      }
      storage := storage.(deliveries := storage.deliveries[m.delivery := Delivery(bound, revision, now)]);
      return Moved(revision);
    }

    /** Nothing is prepared for format 1: its writes carry their bodies into the tables. */
    method PrepareCanonicalWrites(ops: seq<Op>) returns (prepared: set<Digest>)
      modifies this
      ensures prepared == PrepareWrites(old(storage), ops)
      ensures storage == old(storage).(bucket := old(storage).bucket + prepared)
    {
      prepared := {};
      if storage.format.V1? {
        return;
      }
      var i := 0;
      while i < |ops|
        invariant 0 <= i <= |ops|
        invariant prepared == set j | 0 <= j < i && Payload(ops[j]).Some? :: Sha256(Payload(ops[j]).value)
        invariant storage == old(storage).(bucket := old(storage).bucket + prepared)
      {
        var body := Payload(ops[i]);
        if body.Some? && Sha256(body.value) !in prepared {
          storage := storage.(bucket := storage.bucket + {Sha256(body.value)});
          prepared := prepared + {Sha256(body.value)};
        }
        i := i + 1;
      }
    }

    method ActivateTiering(approval: string, now: int)
      modifies this
      ensures storage == Activate(old(storage), approval, now)
    {
      if storage.format.V2? || storage.tiering.Some? {
        return;
      }
      storage := storage.(tiering := Some(Checkpoint(approval, MaxRowid(storage.v1), 0, None, 0, 0, 0, 0, now, None)));
      storage := storage.(format := V2);
    }

    /** Scans whole tuples in row order and stores their bodies; None is the consistency error. */
    method PrepareTieringPass() returns (pass: Option<Pass>)
      requires RowidsDistinct(storage.v1)
      modifies this
      ensures pass == PreparePass(old(storage))
      ensures storage == old(storage).(bucket := old(storage).bucket + if pass.Some? then PassBodies(pass.value) else {})
    {
      hide ScanRow, Candidates, CountThrough, PassBodies;
      if storage.format.V1? || storage.tiering.None? {
        return None;
      }
      var checkpoint := storage.tiering.value;
      var candidates := Candidates(storage, checkpoint);
      var scan := Scan([], {}, checkpoint.after, 0);
      var i := 0;
      var running := true;
      while i < |candidates| && running
        invariant 0 <= i <= |candidates| && storage == old(storage)
        invariant ScanTuples(storage, candidates, Scan([], {}, checkpoint.after, 0))
               == if running then ScanTuples(storage, candidates[i..], scan) else Some(scan)
        decreases |candidates| - i, running
      {
        assert candidates[i..][1..] == candidates[i + 1..];
        match ScanRow(storage, candidates[i], scan)
        case Go(next) =>
          scan := next;
          i := i + 1;
        case Stop =>
          running := false;
        case Fail =>
          return None;
      }
      var last := if candidates == [] then checkpoint.after else storage.v1[candidates[|candidates| - 1]].rowid;
      var taken := Pass(checkpoint, scan.tuples, scan.after, scan.bytes, CountThrough(storage, candidates, scan.after),
                        |candidates| < PASS_ROWS && scan.after == last);
      storage := storage.(bucket := storage.bucket + PassBodies(taken));
      return Some(taken);
    }

    /** The tuple's version 1 rows become version 2 rows, one section at a time. */
    method MoveRows(tuple: PassTuple) returns (rows: nat, bytes: nat)
      requires Legacy(tuple.snapshot) <= TupleKeys(tuple.ref)
      modifies this
      ensures storage == Detach(old(storage), tuple.snapshot)
      ensures rows == |Legacy(tuple.snapshot)| && bytes == LegacyBytes(tuple.snapshot, tuple.ref)
    {
      var s := tuple.snapshot;
      var legacy := Legacy(s);
      hide Detach, DetachOnly, LegacyBytes, TupleKeys, KeysThrough;
      DetachNone(storage, s);
      rows, bytes := 0, 0;
      ghost var done: set<Key> := {};
      var i := 0;
      assert KeysThrough(tuple.ref, 0) == {} by { NoKeys(tuple.ref); }
      while i < 4
        invariant 0 <= i <= 4
        invariant done == legacy * KeysThrough(tuple.ref, i)
        invariant storage == DetachOnly(old(storage), s, done)
        invariant rows == |done| && bytes == BytesThrough(s, tuple.ref, i)
      {
        var k := KeyOf(tuple.ref, TUPLE_SECTIONS[i]);
        NextSection(tuple.ref, i);
        if k in legacy {
          DetachOneMore(old(storage), s, done, k);
          storage := storage.(v2 := storage.v2[k := s.rows[k].meta], v1 := storage.v1 - {k}, chunks := storage.chunks - {k});
          rows := rows + 1;
          bytes := bytes + DigestBytes(s.rows[k].meta.digest);
          done := done + {k};
        }
        i := i + 1;
      }
      AllSections(s, tuple.ref);
      assert done == legacy;
    }

    /** Moves the scanned tuples that have not changed since, row by row. */
    method CommitTieringPass(pass: Pass, now: int)
      modifies this
      ensures storage == CommitPass(old(storage), pass, now)
    {
      hide Conflicts, Remember, TakeSnapshot, Detach, Answered, Drained;
      if storage.format.V1? || storage.tiering != Some(pass.checkpoint) || MarkedComplete(pass.checkpoint) {
        return;
      }
      var migrated, conflicts, moved := 0, 0, 0;
      var i := 0;
      while i < |pass.tuples|
        invariant 0 <= i <= |pass.tuples|
        invariant CommitTuples(Progress(storage, migrated, conflicts, moved), pass.tuples[i..])
               == CommitTuples(Progress(old(storage), 0, 0, 0), pass.tuples)
      {
        var tuple := pass.tuples[i];
        assert pass.tuples[i..][1..] == pass.tuples[i + 1..];
        if Conflicts(storage, tuple) {
          conflicts := conflicts + 1;
        } else {
          UnchangedLegacy(storage, tuple);
          var _ := HasCompletedPullRequestReview(tuple.ref);
          var rows, bytes := MoveRows(tuple);
          migrated := migrated + rows;
          moved := moved + bytes;
        }
        i := i + 1;
      }
      var p := Progress(storage, migrated, conflicts, moved);
      storage := storage.(tiering := Some(NextCheckpoint(pass.checkpoint, pass, p, now)));
    }

    /** None is the error of a commit published before with another body. */
    method PublishCanonicalCommits(repo: string, commits: seq<CommitRecord>, now: int) returns (ok: bool)
      modifies this
      ensures ok <==> PublishCommits(old(storage), repo, commits, now).Some?
      ensures storage == OrElse(PublishCommits(old(storage), repo, commits, now), old(storage))
    {
      hide MaxImportRowid;
      var saved := storage;
      var i := 0;
      while i < |commits|
        invariant 0 <= i <= |commits|
        invariant PublishCommits(storage, repo, commits[i..], now) == PublishCommits(saved, repo, commits, now)
      {
        assert commits[i..][1..] == commits[i + 1..];
        var k := Key(repo, Commits, commits[i].id);
        if k in storage.exports {
          if storage.exports[k].digest != Some(Sha256(commits[i].body)) {
            storage := saved;
            return false;
          }
        } else {
          storage := storage.(imports := storage.imports[k := ImportRow(MaxImportRowid(storage.imports) + 1, commits[i].body)]);
          var revision := NextExportRevision();
          storage := storage.(exports := storage.exports[k := ExportRow(Some(Sha256(commits[i].body)), 1, revision, false, now)]);
        }
        i := i + 1;
      }
      return true;
    }

    /** Rewrites the retired files of unchanged tuples and lifts their siblings to the new revision. */
    method RetireHydrationCache(tuples: seq<RetireTuple>, now: int, prepared: set<Digest>) returns (ok: bool)
      modifies this
      ensures ok <==> RetireAll(old(storage), tuples, now, prepared).Some?
      ensures storage == OrElse(RetireAll(old(storage), tuples, now, prepared), old(storage))
    {
      hide RetireConflicts, Remember, RetireSections, Answered, TupleRevision;
      var saved := storage;
      var i := 0;
      while i < |tuples|
        invariant 0 <= i <= |tuples|
        invariant RetireAll(storage, tuples[i..], now, prepared) == RetireAll(saved, tuples, now, prepared)
      {
        assert tuples[i..][1..] == tuples[i + 1..];
        var t := tuples[i];
        if !RetireConflicts(storage, t) {
          var _ := HasCompletedPullRequestReview(t.ref);
          var wrote := RewriteTuple(t, now, TupleRevision(storage, t.ref) + 1, prepared);
          if !wrote {
            storage := saved;
            return false;
          }
        }
        i := i + 1;
      }
      return true;
    }

    method RewriteTuple(t: RetireTuple, now: int, revision: int, prepared: set<Digest>) returns (ok: bool)
      modifies this
      ensures ok <==> RetireSections(old(storage), t, SECTION_ORDER, now, revision, prepared).Some?
      ensures ok ==> Some(storage) == RetireSections(old(storage), t, SECTION_ORDER, now, revision, prepared)
    {
      hide WriteOp, OpFor;
      var sections := SECTION_ORDER;
      var i := 0;
      while i < |sections|
        invariant 0 <= i <= |sections|
        invariant RetireSections(storage, t, sections[i..], now, revision, prepared)
               == RetireSections(old(storage), t, sections, now, revision, prepared)
      {
        assert sections[i..][1..] == sections[i + 1..];
        var k := KeyOf(t.ref, sections[i]);
        var op := OpFor(t.ops, sections[i]);
        if k in t.rows {
          if op.Some? {
            var wrote := WriteCanonicalOperation(
              op.value, Writer(t.ref, t.rows[k].meta.owner, t.rows[k].meta.generation, now, revision, prepared, None));
            if !wrote {
              return false;
            }
          } else if k in storage.v1 && k in storage.exports {
            var meta := storage.v1[k].meta.(revision := revision, updatedAt := now);
            storage := storage.(v1 := storage.v1[k := storage.v1[k].(meta := meta)]);
            var store := NextExportRevision();
            storage := storage.(
            exports := storage.exports[k := storage.exports[k].(revision := revision, storeRevision := store, updatedAt := now)]);
          }
        }
        i := i + 1;
      }
      return true;
    }

    /** A bounded range of the import table; commits and unresolved rows only advance the sweep. */
    method PruneBackfillShadows(after: int, upper: int) returns (next: int, complete: bool)
      requires ImportRowidsDistinct(storage.imports)
      modifies this
      ensures var rows := ShadowRows(old(storage), after, upper);
              && storage == DropShadows(old(storage), Members(rows))
              && next == (if rows == [] then upper else old(storage).imports[rows[|rows| - 1]].rowid)
              && (complete <==> |rows| < SHADOW_LIMIT || next == upper)
    {
      hide ShadowRows, Shadowed, ImportRowidsDistinct, DropShadows, Members;
      var rows := ShadowRows(storage, after, upper);
      next := if rows == [] then upper else storage.imports[rows[|rows| - 1]].rowid;
      complete := |rows| < SHADOW_LIMIT || next == upper;
      var i := 0;
      DropNothing(storage, rows);
      while i < |rows|
        invariant 0 <= i <= |rows|
        invariant storage == DropShadows(old(storage), Members(rows[..i]))
      {
        var k := rows[i];
        DropOneMore(old(storage), Members(rows[..i]), k);
        OneMoreMember(rows, i);
        if Shadowed(storage, k) {
          storage := storage.(imports := storage.imports - {k});
        }
        i := i + 1;
      }
      assert rows[..|rows|] == rows;
    }

    /** One page of the change feed; None is the consistency error. */
    method ExportRecords(q: Query, size: Entry -> nat) returns (page: Option<Page>)
      requires FeedOrder(storage)
      ensures page == ExportPage(storage, q, size)
    {
      hide SourceBytes, Capturable, EntryOf, Rows, Above, FeedOrder;
      if q.sections == {} {
        return Some(Page([], None, storage.exportRevision));
      }
      var rows := Rows(storage, q.repo, q.sections, Max(q.since, q.cursor), Min(q.limit, q.maxRecords));
      RowsAreIndexed(storage, q.repo, q.sections, Max(q.since, q.cursor), Min(q.limit, q.maxRecords));
      var selected := SelectRows(rows, q);
      if selected.None? {
        return None;
      }
      SelectTakesAPrefix(storage, rows, q, [], 0);
      assert forall k | k in selected.value :: k in rows;
      var capturedLast := if selected.value == [] then 0 else storage.exports[selected.value[|selected.value| - 1]].storeRevision;
      var capturedMore := capturedLast > 0 && Above(storage, q.repo, q.sections, Max(q.since, capturedLast)) != map[];
      var i := 0;
      while i < |selected.value|
        invariant 0 <= i <= |selected.value|
        invariant forall j | 0 <= j < i :: Capturable(storage, selected.value[j])
      {
        if !Capturable(storage, selected.value[i]) {
          assert selected.value[i] in selected.value;
          return None;
        }
        i := i + 1;
      }
      var records := SendRows(selected.value, q, size);
      if records.None? {
        return None;
      }
      var more := capturedMore || |records.value| < |selected.value|;
      var last := Last(records.value);
      return Some(Page(records.value, if last.Some? && (|records.value| < |rows| || more) then last else None,
                       storage.exportRevision));
    }

    method SelectRows(rows: seq<Key>, q: Query) returns (selected: Option<seq<Key>>)
      requires forall k | k in rows :: k in storage.exports
      ensures selected == Select(storage, rows, q, [], 0)
    {
      hide SourceBytes;
      var taken: seq<Key> := [];
      var bytes := 0;
      var i := 0;
      while i < |rows| && |taken| < q.maxRecords
        invariant 0 <= i <= |rows|
        invariant Select(storage, rows[i..], q, taken, bytes) == Select(storage, rows, q, [], 0)
      {
        assert rows[i..][1..] == rows[i + 1..];
        var size := SourceBytes(storage, rows[i]);
        if size.None? {
          return None;
        }
        if taken != [] && size.value > q.maxSourceBytes - bytes {
          return Some(taken);
        }
        taken := taken + [rows[i]];
        bytes := bytes + size.value;
        i := i + 1;
      }
      return Some(taken);
    }

    method SendRows(rows: seq<Key>, q: Query, size: Entry -> nat) returns (records: Option<seq<Entry>>)
      requires forall k | k in rows :: k in storage.exports
      ensures records == Respond(storage, rows, q, size, [], 0)
    {
      hide EntryOf;
      var sent: seq<Entry> := [];
      var bytes := 0;
      var i := 0;
      while i < |rows|
        invariant 0 <= i <= |rows|
        invariant Respond(storage, rows[i..], q, size, sent, bytes) == Respond(storage, rows, q, size, [], 0)
      {
        assert rows[i..][1..] == rows[i + 1..];
        var entry := EntryOf(storage, rows[i]);
        if entry.None? {
          return None;
        }
        if sent != [] && bytes + size(entry.value) > q.maxBytes {
          return Some(sent);
        }
        sent := sent + [entry.value];
        bytes := bytes + size(entry.value);
        i := i + 1;
      }
      return Some(sent);
    }
  }

  lemma DropNothing(db: Db, rows: seq<Key>)
    ensures DropShadows(db, Members(rows[..0])) == db
  {
    assert DropShadows(db, Members(rows[..0])).imports == db.imports;
  }

  lemma OneMoreMember(rows: seq<Key>, i: nat)
    requires i < |rows|
    ensures Members(rows[..i + 1]) == Members(rows[..i]) + {rows[i]}
  {
  }

  lemma DropOneMore(db: Db, among: set<Key>, k: Key)
    ensures var u := DropShadows(db, among);
            && DropShadows(db, among + {k}) == (if Shadowed(u, k) then u.(imports := u.imports - {k}) else u)
  {
    var u := DropShadows(db, among);
    assert Shadowed(u, k) == Shadowed(db, k);
    assert DropShadows(db, among + {k}).imports == (if Shadowed(u, k) then u.imports - {k} else u.imports);
  }

  lemma RememberKeepsFormat(db: Db, ref: ItemRef)
    ensures Remember(db, ref).format == db.format
  {
  }

  lemma RememberKeepsReceipts(db: Db, ref: ItemRef)
    ensures Remember(db, ref).receipts == db.receipts
  {
  }

  lemma NoKeys(ref: ItemRef)
    ensures KeysThrough(ref, 0) == {}
  {
  }

  lemma UnchangedLegacy(db: Db, t: PassTuple)
    requires !Conflicts(db, t)
    ensures Legacy(t.snapshot) <= TupleKeys(t.ref)
  {
    assert TakeSnapshot(db, t.ref) == t.snapshot;
    LegacyIsInTuple(db, t.ref);
  }

  /** A write credits the answer after the row is in place. */
  lemma CreditComesLast(db: Db, op: Op, w: Writer)
    ensures var bare := WriteOp(db, op, w.(credit := None));
            && (WriteOp(db, op, w).Some? <==> bare.Some?)
            && (bare.Some? ==> WriteOp(db, op, w) == Some(Credit(bare.value, op, w)))
  {
    hide Place, Remember;
  }
}

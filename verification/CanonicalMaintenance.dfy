/** Commit publication, hydration retirement and shadow cleanup keep the invariant and undo nothing. */
module CanonicalMaintenance {
  import opened Ordering
  import opened CanonicalTables
  import opened CanonicalTransactions
  import opened CanonicalInvariant
  import opened CanonicalEvolution
  import opened CanonicalAcceptance
  import opened CanonicalFencing
  import opened CanonicalMigration

  // ----- changes to imports and export rows beside the tuples -----

  /** Records, receipts and answers are the same; import and export rows of some keys may differ. */
  ghost predicate SameTuples(a: Db, b: Db) {
    b == a.(imports := b.imports, exports := b.exports, exportRevision := b.exportRevision, bucket := b.bucket)
  }

  lemma SameTuplesRevisions(a: Db, b: Db)
    requires SameTuples(a, b)
    ensures forall ref :: TupleRevision(b, ref) == TupleRevision(a, ref)
    ensures ViewRaises(a, b) && Shrinks(a, b)
  {
    assert forall k :: Revision(b, k) == Revision(a, k) && Stored(a, k) == Stored(b, k);
  }

  lemma SameTuplesKeepInv(a: Db, b: Db)
    requires Inv(a) && SameTuples(a, b) && a.bucket <= b.bucket
    requires Agreement(b) && Sourced(b) && FeedOrder(b)
    ensures Inv(b)
  {
    SameTuplesRows(a, b);
    SameTuplesRevisions(a, b);
    InvIsReceipts(a);
    hide RowidsDistinct, FeedOrder, V1Bodies, V2Bodies, Owned, Sourced, Agreement, WellKeyed, Formats, TupleRevision,
      ViewRaises, Shrinks, ReceiptsFit, ReceiptsUnique, Frontier;
    SameReceiptsKeepUnique(a, b);
    RaisedTuplesKeepFit(a, b);
    SameFrontier(a, b);
  }

  lemma SameTuplesRows(a: Db, b: Db)
    requires Inv(a) && SameTuples(a, b) && a.bucket <= b.bucket
    ensures WellKeyed(b) && RowidsDistinct(b.v1) && V1Bodies(b) && V2Bodies(b) && Owned(b) && Formats(b) && Frontier(a)
  {
    hide FeedOrder, ReceiptsFit, ReceiptsUnique, TupleRevision, Sourced, Agreement;
    SameBodies(a, b);
  }

  /** A primary row's evidence reads its own import and export row only, and canonical rows no import. */
  lemma SameTuplesEvidence(a: Db, b: Db, k: Key)
    requires SameTuples(a, b) && V2Bodies(a) && V2Bodies(b) && Agreement(a) && Primary(k.section)
    requires k in a.exports <==> k in b.exports
    requires k in a.exports ==> b.exports[k] == a.exports[k]
    requires k in a.exports && a.exports[k].imported ==> (k in b.imports <==> k in a.imports)
    requires k in a.exports && a.exports[k].imported && k in a.imports ==> b.imports[k] == a.imports[k]
    ensures EvidenceAt(b, k) == EvidenceAt(a, k)
  {
    if Stored(a, k) {
      assert Provenance(b, k) == Provenance(a, k);
    }
    if k in a.exports && a.exports[k].digest.Some? && k !in a.v2 {
      assert V1Body(b, k) == V1Body(a, k);
      assert ExportBody(b, k) == ExportBody(a, k);
    }
  }

  ghost predicate SameEvidenceEverywhere(a: Db, b: Db) {
    && (forall k: Key | Primary(k.section) :: k in a.exports <==> k in b.exports)
    && (forall k: Key | Primary(k.section) && k in a.exports ::
          && b.exports[k] == a.exports[k]
          && (a.exports[k].imported ==> (k in b.imports <==> k in a.imports))
          && (a.exports[k].imported && k in a.imports ==> b.imports[k] == a.imports[k]))
  }

  lemma SameTuplesRemember(a: Db, b: Db)
    requires SameTuples(a, b) && V2Bodies(a) && V2Bodies(b) && Agreement(a) && SameEvidenceEverywhere(a, b)
    ensures Remembers(a, b)
  {
    hide EvidenceAt, V2Bodies, Agreement;
    forall ref | Answered(a, ref) ensures Answered(b, ref) {
      SameTuplesEvidence(a, b, KeyOf(ref, Items));
      SameTuplesEvidence(a, b, KeyOf(ref, Closed));
    }
  }

  lemma SameTuplesKeeps(a: Db, b: Db)
    requires Inv(a) && SameTuples(a, b) && a.bucket <= b.bucket
    requires Agreement(b) && Sourced(b) && FeedOrder(b) && FeedMoves(a, b) && SameEvidenceEverywhere(a, b)
    ensures Inv(b) && Evolves(a, b)
  {
    SameTuplesKeepInv(a, b);
    SameTuplesRevisions(a, b);
    assert V2Bodies(a) && V2Bodies(b) && Agreement(a);
    hide Inv, V2Bodies, Agreement, Sourced, FeedOrder, FeedMoves, SameEvidenceEverywhere, TupleRevision, ViewRaises, Shrinks, Remembers;
    SameTuplesRemember(a, b);
  }

  lemma InvIsSourced(db: Db)
    requires Inv(db)
    ensures Agreement(db) && Sourced(db) && FeedOrder(db)
  {
  }

  // ----- the body bucket only grows -----

  ghost predicate BucketGrows(a: Db, b: Db) { b == a.(bucket := b.bucket) && a.bucket <= b.bucket }

  lemma BucketGrowsSources(a: Db, b: Db)
    requires Agreement(a) && Sourced(a) && BucketGrows(a, b)
    ensures Agreement(b) && Sourced(b)
  {
    SameSources(a, b);
  }

  lemma StoringBodiesKeeps(db: Db, more: set<Digest>)
    requires Inv(db)
    ensures var u := db.(bucket := db.bucket + more);
            Inv(u) && Evolves(db, u)
  {
    var u := db.(bucket := db.bucket + more);
    hide Inv, Evolves, Agreement, Sourced, FeedOrder;
    InvIsSourced(db);
    BucketGrowsSources(db, u);
    SameFeedKeepsOrder(db, u);
    SameTuplesKeeps(db, u);
  }

  // ----- commits -----

  lemma PublishCommitKeeps(db: Db, repo: string, r: CommitRecord, now: int)
    requires Inv(db) && PublishCommit(db, repo, r, now).Some?
    ensures var u := PublishCommit(db, repo, r, now).value;
            Inv(u) && Evolves(db, u) && u.bucket == db.bucket
  {
    var k := Key(repo, Commits, r.id);
    var u := PublishCommit(db, repo, r, now).value;
    hide Inv, Evolves;
    if k in db.exports {
      EvolvesItself(db);
    } else {
      var row := ImportRow(MaxImportRowid(db.imports) + 1, r.body);
      hide MaxImportRowid;
      assert CommittedRow(db, u, k, row, now);
      CommittedKeeps(db, u, k, row, now);
    }
  }

  lemma CommittedKeeps(db: Db, u: Db, k: Key, row: ImportRow, now: int)
    requires Inv(db) && CommittedRow(db, u, k, row, now)
    ensures Inv(u) && Evolves(db, u) && u.bucket == db.bucket
  {
    hide Inv, Evolves, Agreement, Sourced, FeedOrder, FeedMoves, CommittedRow, SameEvidenceEverywhere;
    InvIsSourced(db);
    CommittedSources(db, u, k, row, now);
    CommittedFeed(db, u, k, row, now);
    CommittedElsewhere(db, u, k, row, now);
    SameTuplesKeeps(db, u);
  }

  lemma CommittedElsewhere(db: Db, u: Db, k: Key, row: ImportRow, now: int)
    requires CommittedRow(db, u, k, row, now)
    ensures SameTuples(db, u) && SameEvidenceEverywhere(db, u) && u.bucket == db.bucket
  {
  }

  ghost predicate CommittedRow(db: Db, u: Db, k: Key, row: ImportRow, now: int) {
    && k.section.Commits? && k !in db.exports
    && u == db.(imports := db.imports[k := row], exportRevision := db.exportRevision + 1,
                exports := db.exports[k := ExportRow(Some(Sha256(row.body)), 1, db.exportRevision + 1, false, now)])
  }

  lemma CommittedSources(db: Db, u: Db, k: Key, row: ImportRow, now: int)
    requires Agreement(db) && Sourced(db) && CommittedRow(db, u, k, row, now)
    ensures Agreement(u) && Sourced(u)
  {
  }

  lemma CommittedFeed(db: Db, u: Db, k: Key, row: ImportRow, now: int)
    requires FeedOrder(db) && CommittedRow(db, u, k, row, now)
    ensures FeedOrder(u) && FeedMoves(db, u)
  {
  }

  lemma {:induction false} PublishCommitsKeep(db: Db, repo: string, rs: seq<CommitRecord>, now: int)
    requires Inv(db)
    ensures var u := OrElse(PublishCommits(db, repo, rs, now), db);
            Inv(u) && Evolves(db, u)
    decreases |rs|
  {
    hide Inv, Evolves, PublishCommit;
    EvolvesItself(db);
    if rs != [] && PublishCommit(db, repo, rs[0], now).Some? {
      var v := PublishCommit(db, repo, rs[0], now).value;
      PublishCommitKeeps(db, repo, rs[0], now);
      PublishCommitsKeep(v, repo, rs[1..], now);
      InvIsFormats(db);
      EvolvesTransitive(db, v, OrElse(PublishCommits(v, repo, rs[1..], now), v));
    }
  }

  // ----- import shadows -----

  lemma DropShadowsSources(db: Db, among: set<Key>)
    requires Agreement(db) && Sourced(db)
    ensures Agreement(DropShadows(db, among)) && Sourced(DropShadows(db, among))
  {
  }

  lemma DropShadowsEvidence(db: Db, among: set<Key>)
    ensures SameEvidenceEverywhere(db, DropShadows(db, among))
  {
  }

  lemma DropShadowsKeeps(db: Db, among: set<Key>)
    requires Inv(db)
    ensures Inv(DropShadows(db, among)) && Evolves(db, DropShadows(db, among))
  {
    var u := DropShadows(db, among);
    hide Inv, Evolves, Shadowed;
    InvIsSourced(db);
    DropShadowsSources(db, among);
    DropShadowsEvidence(db, among);
    SameFeedKeepsOrder(db, u);
    hide Agreement, Sourced, FeedOrder;
    SameTuplesKeeps(db, u);
  }

  /** Shadow cleanup drops no record a reader could be pointed to. */
  lemma DropShadowsKeepsBodies(db: Db, among: set<Key>, k: Key)
    requires k in db.exports && db.exports[k].digest.Some?
    ensures ExportBody(DropShadows(db, among), k) == ExportBody(db, k)
  {
    var u := DropShadows(db, among);
    assert V1Body(u, k) == V1Body(db, k);
  }

  // ----- hydration retirement -----

  /** The row under `k` joined a new tuple revision and moved in the feed; its body stayed. */
  ghost predicate Bumped(db: Db, u: Db, k: Key, revision: int) {
    && k in db.v1 && k in db.exports
    && u == db.(v1 := u.v1, exports := u.exports, exportRevision := db.exportRevision + 1)
    && u.v1.Keys == db.v1.Keys && u.exports.Keys == db.exports.Keys
    && (forall j | j in db.v1 && j != k :: u.v1[j] == db.v1[j])
    && (forall j | j in db.exports && j != k :: u.exports[j] == db.exports[j])
    && u.v1[k] == db.v1[k].(meta := u.v1[k].meta)
    && u.v1[k].meta.digest == db.v1[k].meta.digest && u.v1[k].meta.owner == db.v1[k].meta.owner
    && u.v1[k].meta.revision == revision
    && u.exports[k].digest == db.exports[k].digest && u.exports[k].imported == db.exports[k].imported
    && u.exports[k].revision == revision && u.exports[k].storeRevision == db.exportRevision + 1
  }

  lemma BumpIsBumped(db: Db, k: Key, revision: int, now: int)
    requires k in db.v1 && k in db.exports
    ensures Bumped(db, Bump(db, k, revision, now), k, revision)
  {
  }

  lemma BumpedKeys(db: Db, u: Db, k: Key, revision: int)
    requires Bumped(db, u, k, revision) && WellKeyed(db) && Owned(db) && revision >= 1
    ensures WellKeyed(u) && Owned(u)
  {
  }

  lemma BumpedRowids(db: Db, u: Db, k: Key, revision: int)
    requires Bumped(db, u, k, revision) && RowidsDistinct(db.v1)
    ensures RowidsDistinct(u.v1)
  {
    assert forall j | j in u.v1 :: j in db.v1 && u.v1[j].rowid == db.v1[j].rowid;
    hide Bumped;
  }

  lemma BumpedBodies(db: Db, u: Db, k: Key, revision: int)
    requires Bumped(db, u, k, revision) && V1Bodies(db) && V2Bodies(db)
    ensures V1Bodies(u) && V2Bodies(u)
  {
    forall j | j in u.v1 ensures V1Body(u, j) == V1Body(db, j) {}
  }

  lemma BumpedAgreement(db: Db, u: Db, k: Key, revision: int)
    requires Bumped(db, u, k, revision) && WellKeyed(db) && Agreement(db)
    ensures Agreement(u)
  {
  }

  lemma BumpedSources(db: Db, u: Db, k: Key, revision: int)
    requires Bumped(db, u, k, revision) && Sourced(db)
    ensures Sourced(u)
  {
  }

  lemma BumpedFeed(db: Db, u: Db, k: Key, revision: int)
    requires Bumped(db, u, k, revision) && FeedOrder(db)
    ensures FeedOrder(u)
  {
  }

  lemma BumpedFrontier(db: Db, u: Db, k: Key, revision: int)
    requires Bumped(db, u, k, revision) && Formats(db) && Frontier(db)
    ensures Formats(u) && Frontier(u)
  {
  }

  lemma BumpedMoves(db: Db, u: Db, k: Key, revision: int)
    requires Bumped(db, u, k, revision) && WellKeyed(db)
    ensures FeedMoves(db, u) && Shrinks(db, u) && Within(db, u, RefOf(k), revision) && u.bucket == db.bucket
  {
  }

  lemma WithinRaisesTuples(a: Db, b: Db, ref: ItemRef, revision: int)
    requires Within(a, b, ref, revision) && revision >= TupleRevision(a, ref) && WellKeyed(a)
    ensures forall q :: TupleRevision(b, q) >= TupleRevision(a, q)
  {
    hide TupleRevision;
    forall q ensures TupleRevision(b, q) >= TupleRevision(a, q) {
      forall s: Section | !s.Commits? ensures Revision(a, KeyOf(q, s)) <= Revision(b, KeyOf(q, s)) {
        var k := KeyOf(q, s);
        if Stored(a, k) {
          assert Stored(b, k);
          assert SameVersion(a, b, k) || MetaOf(b, k).revision == revision;
          assert Revision(a, k) <= TupleRevision(a, q);
        } else if Stored(b, k) {
          assert RefOf(k) == ref && MetaOf(b, k).revision == revision;
          assert Revision(a, k) <= TupleRevision(a, q);
        }
      }
    }
  }

  lemma BumpedKeepsInv(db: Db, u: Db, k: Key, revision: int)
    requires Inv(db) && Bumped(db, u, k, revision) && revision >= 1 && revision >= TupleRevision(db, RefOf(k))
    ensures Inv(u)
  {
    assert u.receipts == db.receipts;
    hide Bumped, WellKeyed, RowidsDistinct, V1Bodies, V2Bodies, Agreement, Sourced, FeedOrder, Owned, ReceiptsFit,
      ReceiptsUnique, Formats, Frontier, TupleRevision, Within, FeedMoves;
    BumpedKeys(db, u, k, revision);
    BumpedRowids(db, u, k, revision);
    BumpedBodies(db, u, k, revision);
    BumpedAgreement(db, u, k, revision);
    BumpedSources(db, u, k, revision);
    BumpedFeed(db, u, k, revision);
    BumpedFrontier(db, u, k, revision);
    BumpedMoves(db, u, k, revision);
    WithinRaisesTuples(db, u, RefOf(k), revision);
    SameReceiptsKeepUnique(db, u);
    RaisedTuplesKeepFit(db, u);
  }

  /** Every other answer stays, and so does this item's once it is remembered. */
  ghost predicate KeepsAnswers(a: Db, b: Db, ref: ItemRef) {
    && (forall q | q != ref && Answered(a, q) :: Answered(b, q))
    && (ref in a.answers && a.answers[ref] ==> ref in b.answers && b.answers[ref])
  }

  lemma BumpedEvidence(db: Db, u: Db, k: Key, revision: int, j: Key)
    requires Bumped(db, u, k, revision) && j != k
    ensures EvidenceAt(u, j) == EvidenceAt(db, j)
  {
    if Stored(db, j) {
      assert MetaOf(u, j) == MetaOf(db, j);
      assert Provenance(u, j) == Provenance(db, j);
    }
    assert V1Body(u, j) == V1Body(db, j);
  }

  lemma BumpedAnswers(db: Db, u: Db, k: Key, revision: int)
    requires Bumped(db, u, k, revision)
    ensures KeepsAnswers(db, u, RefOf(k))
  {
    assert u.answers == db.answers;
    hide Bumped, EvidenceAt;
    forall q | q != RefOf(k) && Answered(db, q) ensures Answered(u, q) {
      BumpedEvidence(db, u, k, revision, KeyOf(q, Items));
      BumpedEvidence(db, u, k, revision, KeyOf(q, Closed));
    }
  }

  lemma WriteKeepsAnswers(db: Db, op: Op, w: Writer)
    requires Formats(db) && WriteOp(db, op, w).Some?
    ensures KeepsAnswers(db, WriteOp(db, op, w).value, w.ref)
  {
    hide Formats, WriteOp, Answered, PrimariesKept;
    WriteRemembers(db, op, w);
    if w.ref in db.answers && db.answers[w.ref] {
      RememberedAnswer(db, w.ref);
      WriteSecuresAnswer(db, op, w);
      RememberedAnswer(WriteOp(db, op, w).value, w.ref);
    }
  }

  lemma RememberedAnswer(db: Db, ref: ItemRef)
    requires ref in db.answers
    ensures Answered(db, ref) == db.answers[ref]
  {
  }

  ghost predicate RetireFits(t: RetireTuple) {
    && (forall op | op in t.ops :: OpFits(op))
    && (forall k | k in t.rows :: RefOf(k) == t.ref && OwnerRef(t.rows[k].meta.owner) == t.ref)
  }

  lemma {:induction false} OpForFinds(ops: seq<Op>, s: Section)
    requires OpFor(ops, s).Some?
    ensures OpFor(ops, s).value in ops && OpFor(ops, s).value.section == s
  {
    if ops[0].section != s {
      OpForFinds(ops[1..], s);
    }
  }

  /** What one section of a retirement leaves, whichever way it is rewritten. */
  ghost predicate Rewritten(a: Db, b: Db, ref: ItemRef, revision: int) {
    FeedMoves(a, b) && Shrinks(a, b) && Within(a, b, ref, revision) && KeepsAnswers(a, b, ref) && b.bucket == a.bucket
  }

  lemma RewrittenTransitive(a: Db, b: Db, c: Db, ref: ItemRef, revision: int)
    requires Rewritten(a, b, ref, revision) && Rewritten(b, c, ref, revision)
    ensures Rewritten(a, c, ref, revision)
  {
    hide FeedMoves, Within, Answered;
    FeedMovesTransitive(a, b, c);
    WithinTransitive(a, b, c, ref, revision);
  }

  lemma RewrittenItself(a: Db, ref: ItemRef, revision: int)
    ensures Rewritten(a, a, ref, revision)
  {
    hide Answered;
  }

  lemma RewrittenKeepsRevision(a: Db, b: Db, ref: ItemRef, revision: int)
    requires Rewritten(a, b, ref, revision) && WellKeyed(a) && revision >= TupleRevision(a, ref)
    ensures revision >= TupleRevision(b, ref)
  {
    var w := Writer(ref, Reconciler(ref.repo, ref.id), 0, 0, revision, {}, None);
    if revision >= 1 {
      hide TupleRevision, FeedMoves, Shrinks, KeepsAnswers, WellKeyed, Within;
      WithinKeepsWriter(a, b, w);
    }
  }

  ghost function RetireWriter(t: RetireTuple, k: Key, now: int, revision: int, prepared: set<Digest>): Writer
    requires k in t.rows
  {
    Writer(t.ref, t.rows[k].meta.owner, t.rows[k].meta.generation, now, revision, prepared, None)
  }

  lemma RetireSectionKeeps(db: Db, t: RetireTuple, s: Section, now: int, revision: int, prepared: set<Digest>)
    requires Inv(db) && RetireFits(t) && prepared <= db.bucket
    requires revision >= 1 && revision >= TupleRevision(db, t.ref)
    ensures var next := RetireSection(db, t, s, now, revision, prepared);
            next.Some? ==> Inv(next.value) && Rewritten(db, next.value, t.ref, revision)
  {
    var k := KeyOf(t.ref, s);
    var op := OpFor(t.ops, s);
    hide Inv, TupleRevision, WriteOp, OpFits, FeedMoves, Shrinks, Within, KeepsAnswers, Bump;
    RewrittenItself(db, t.ref, revision);
    InvIsFormats(db);
    if k in t.rows && op.Some? {
      OpForFinds(t.ops, s);
      var w := RetireWriter(t, k, now, revision, prepared);
      if WriteOp(db, op.value, w).Some? {
        WriteKeepsInv(db, op.value, w);
        WriteMoves(db, op.value, w);
        WriteKeepsAnswers(db, op.value, w);
      }
    } else if k in t.rows && k in db.v1 && k in db.exports {
      var u := Bump(db, k, revision, now);
      BumpIsBumped(db, k, revision, now);
      BumpedKeepsInv(db, u, k, revision);
      BumpedMoves(db, u, k, revision);
      BumpedAnswers(db, u, k, revision);
    }
  }

  lemma {:induction false} RetireSectionsKeep(db: Db, t: RetireTuple, sections: seq<Section>, now: int, revision: int, prepared: set<Digest>)
    requires Inv(db) && RetireFits(t) && prepared <= db.bucket
    requires revision >= 1 && revision >= TupleRevision(db, t.ref)
    ensures var next := RetireSections(db, t, sections, now, revision, prepared);
            next.Some? ==> Inv(next.value) && Rewritten(db, next.value, t.ref, revision)
    decreases |sections|
  {
    hide Inv, Rewritten, TupleRevision, RetireSection, RetireFits, WellKeyed, RowidsDistinct, Formats, FeedOrder;
    if sections == [] {
      RewrittenItself(db, t.ref, revision);
    } else {
      var first := RetireSection(db, t, sections[0], now, revision, prepared);
      RetireSectionKeeps(db, t, sections[0], now, revision, prepared);
      if first.Some? {
        var v := first.value;
        InvIsFormats(db);
        RewrittenKeepsRevision(db, v, t.ref, revision);
        assert prepared <= v.bucket by { RewrittenBucket(db, v, t.ref, revision); }
        RetireSectionsKeep(v, t, sections[1..], now, revision, prepared);
        var next := RetireSections(v, t, sections[1..], now, revision, prepared);
        if next.Some? {
          RewrittenTransitive(db, v, next.value, t.ref, revision);
        }
      }
    }
  }

  lemma RewrittenBucket(a: Db, b: Db, ref: ItemRef, revision: int)
    requires Rewritten(a, b, ref, revision)
    ensures b.bucket == a.bucket
  {
  }

  /** A tuple rewritten above its old revision undoes nothing, once its answer is remembered. */
  lemma RewrittenEvolves(a: Db, b: Db, ref: ItemRef, revision: int)
    requires Rewritten(a, b, ref, revision) && revision > TupleRevision(a, ref)
    requires Answered(a, ref) ==> ref in a.answers && a.answers[ref]
    ensures Evolves(a, b)
  {
    hide FeedMoves, TupleRevision, EvidenceAt, Within;
    WithinRaises(a, b, ref, revision);
  }

  lemma RetireTupleKeeps(db: Db, t: RetireTuple, now: int, prepared: set<Digest>)
    requires Inv(db) && (forall op | op in t.ops :: OpFits(op)) && prepared <= db.bucket
    ensures var next := RetireTupleTx(db, t, now, prepared);
            next.Some? ==> Inv(next.value) && Evolves(db, next.value) && next.value.bucket == db.bucket
  {
    hide Inv, Evolves, Remember, TupleRevision, RetireConflicts, RetireSections, RetireFits, OpFits;
    EvolvesItself(db);
    var next := RetireTupleTx(db, t, now, prepared);
    if !RetireConflicts(db, t) && next.Some? {
      UnchangedRowsFit(db, t);
      RetireOpenKeeps(db, t, now, prepared, next.value);
    }
  }

  lemma RetireOpenKeeps(db: Db, t: RetireTuple, now: int, prepared: set<Digest>, u: Db)
    requires Inv(db) && RetireFits(t) && prepared <= db.bucket
    requires var s := Remember(db, t.ref);
             RetireSections(s, t, SECTION_ORDER, now, TupleRevision(s, t.ref) + 1, prepared) == Some(u)
    ensures Inv(u) && Evolves(db, u) && u.bucket == db.bucket
  {
    hide Inv, Evolves, Remember, TupleRevision, RetireSections, RetireFits, Rewritten, Answered, WellKeyed, RowidsDistinct,
      Formats, FeedOrder;
    var s := Remember(db, t.ref);
    var revision := TupleRevision(s, t.ref) + 1;
    RememberIsFaithful(db, t.ref);
    RememberEvolves(db, t.ref);
    AnswersOnlyKeepsInv(db, s);
    InvTupleRevision(s, t.ref);
    RetireSectionsKeep(s, t, SECTION_ORDER, now, revision, prepared);
    RewrittenBucket(s, u, t.ref, revision);
    RewrittenEvolves(s, u, t.ref, revision);
    InvIsFormats(db);
    EvolvesTransitive(db, s, u);
  }

  /** A tuple that has not changed since it was captured still names its own rows. */
  lemma UnchangedRowsFit(db: Db, t: RetireTuple)
    requires Inv(db) && !RetireConflicts(db, t) && (forall op | op in t.ops :: OpFits(op))
    ensures RetireFits(t)
  {
    hide Inv, OpFits, OwnerRef, Owned, ReceiptsFit, ReceiptsUnique;
    InvIsReceipts(db);
    RetireRowsFit(db, t.ref);
    hide RetireRows;
  }

  lemma RetireRowsFit(db: Db, ref: ItemRef)
    requires Owned(db)
    ensures forall k | k in RetireRows(db, ref) ::
              RefOf(k) == ref && OwnerRef(RetireRows(db, ref)[k].meta.owner) == ref
  {
    hide OwnerRef;
  }

  lemma {:induction false} RetireAllKeeps(db: Db, ts: seq<RetireTuple>, now: int, prepared: set<Digest>)
    requires Inv(db) && (forall t, op | t in ts && op in t.ops :: OpFits(op)) && prepared <= db.bucket
    ensures var u := OrElse(RetireAll(db, ts, now, prepared), db);
            Inv(u) && Evolves(db, u)
    decreases |ts|
  {
    hide Inv, Evolves, RetireTupleTx, OpFits;
    EvolvesItself(db);
    if ts != [] {
      var first := RetireTupleTx(db, ts[0], now, prepared);
      RetireTupleKeeps(db, ts[0], now, prepared);
      if first.Some? {
        var v := first.value;
        RetireAllKeeps(v, ts[1..], now, prepared);
        InvIsFormats(db);
        EvolvesTransitive(db, v, OrElse(RetireAll(v, ts[1..], now, prepared), v));
      }
    }
  }

  // ----- what retirement and commits leave -----

  /** A rewritten file holds its stripped view under its old owner; a sibling keeps its digest and
      owner; both join the new revision. */
  ghost predicate RetiredRow(a: Db, b: Db, t: RetireTuple, k: Key, now: int, revision: int)
    requires k in t.rows
  {
    var was := t.rows[k].meta;
    var op := OpFor(t.ops, k.section);
    Stored(b, k) && MetaOf(b, k) ==
      if op.Some? then Meta(DigestOf(Payload(op.value)), revision, was.owner, was.generation, now)
      else was.(revision := revision, updatedAt := now)
  }

  lemma RetireSectionIsExact(db: Db, t: RetireTuple, s: Section, now: int, revision: int, prepared: set<Digest>, k: Key)
    requires Inv(db) && RetireSection(db, t, s, now, revision, prepared).Some?
    requires KeyOf(t.ref, s) in t.rows ==> KeyOf(t.ref, s) in db.v1 && db.v1[KeyOf(t.ref, s)].meta == t.rows[KeyOf(t.ref, s)].meta
    ensures var u := RetireSection(db, t, s, now, revision, prepared).value;
            && (KeyOf(t.ref, s) in t.rows ==> RetiredRow(db, u, t, KeyOf(t.ref, s), now, revision))
            && (k != KeyOf(t.ref, s) || k !in t.rows ==>
                  SameRow(db, u, k) && (k in db.v1 ==> k in u.v1 && u.v1[k].meta == db.v1[k].meta))
  {
    hide Inv, WriteOp, OpFor, Payload, Bump, Formats, WellKeyed, Agreement, Sourced, FeedOrder, RowidsDistinct;
    InvIsFormats(db);
    InvIsSourced(db);
    var j := KeyOf(t.ref, s);
    if j in t.rows {
      var op := OpFor(t.ops, s);
      if op.Some? {
        OpForFinds(t.ops, s);
        WriteOneIsExact(db, op.value, RetireWriter(t, j, now, revision, prepared), k);
      } else {
        assert j in db.exports by { ExportedRows(db, j); }
        BumpOneIsExact(db, j, revision, now, k);
      }
    }
  }

  lemma ExportedRows(db: Db, k: Key)
    requires Agreement(db) && k in db.v1
    ensures k in db.exports
  {
  }

  lemma WriteOneIsExact(db: Db, op: Op, w: Writer, k: Key)
    requires Formats(db) && WellKeyed(db) && WriteOp(db, op, w).Some?
    ensures var u := WriteOp(db, op, w).value;
            var j := KeyOf(w.ref, op.section);
            && Stored(u, j) && MetaOf(u, j) == Meta(DigestOf(Payload(op)), w.revision, w.owner, w.generation, w.now)
            && (k != j ==> SameRow(db, u, k) && (k in db.v1 ==> k in u.v1 && u.v1[k].meta == db.v1[k].meta))
  {
    hide WriteOp, Seeded, Place, Placed, Credit, AnswersOnly, SameRow, MetaOf, Stored, Formats, WellKeyed;
    WriteIsExact(db, op, w, k);
    WrittenRow(db, op, w);
    if k != KeyOf(w.ref, op.section) && k in db.v1 {
      WriteOpShape(db, op, w);
      var j := KeyOf(w.ref, op.section);
      var s := Seeded(db, op, w);
      var rowid := PlaceIsPlaced(s, j, Payload(op), MetaFor(op, w));
      OtherRowsStay(db, s, Place(s, j, Payload(op), MetaFor(op, w)), WriteOp(db, op, w).value, j, Payload(op), MetaFor(op, w), rowid, k);
    }
  }

  lemma WrittenRow(db: Db, op: Op, w: Writer)
    requires WriteOp(db, op, w).Some? && RowIs(WriteOp(db, op, w).value, op, w)
    ensures var u := WriteOp(db, op, w).value;
            Stored(u, KeyOf(w.ref, op.section))
            && MetaOf(u, KeyOf(w.ref, op.section)) == Meta(DigestOf(Payload(op)), w.revision, w.owner, w.generation, w.now)
  {
    hide WriteOp;
  }

  lemma OtherRowsStay(db: Db, s: Db, p: Db, u: Db, j: Key, body: Option<Body>, meta: Meta, rowid: int, k: Key)
    requires AnswersOnly(db, s) && Placed(s, p, j, body, meta, rowid) && AnswersOnly(p, u) && k != j && k in db.v1
    ensures k in u.v1 && u.v1[k].meta == db.v1[k].meta
  {
  }

  lemma BumpOneIsExact(db: Db, j: Key, revision: int, now: int, k: Key)
    requires WellKeyed(db) && j in db.v1 && j in db.exports
    ensures var u := Bump(db, j, revision, now);
            && Stored(u, j) && MetaOf(u, j) == db.v1[j].meta.(revision := revision, updatedAt := now)
            && (k != j ==> SameRow(db, u, k) && (k in db.v1 ==> k in u.v1 && u.v1[k].meta == db.v1[k].meta))
  {
  }

  lemma {:induction false} RetireSectionsAreExact(db: Db, t: RetireTuple, sections: seq<Section>, now: int, revision: int,
                                                  prepared: set<Digest>, k: Key)
    requires Inv(db) && RetireFits(t) && prepared <= db.bucket && revision >= 1 && revision >= TupleRevision(db, t.ref)
    requires forall i, j | 0 <= i < j < |sections| :: sections[i] != sections[j]
    requires forall s | s in sections && KeyOf(t.ref, s) in t.rows ::
               KeyOf(t.ref, s) in db.v1 && db.v1[KeyOf(t.ref, s)].meta == t.rows[KeyOf(t.ref, s)].meta
    requires RetireSections(db, t, sections, now, revision, prepared).Some?
    ensures var u := RetireSections(db, t, sections, now, revision, prepared).value;
            && (k in t.rows && (exists s | s in sections :: k == KeyOf(t.ref, s)) ==> RetiredRow(db, u, t, k, now, revision))
            && (k !in t.rows || (forall s | s in sections :: k != KeyOf(t.ref, s)) ==> SameRow(db, u, k))
    decreases |sections|
  {
    hide Inv, RetireSection, RetireFits, TupleRevision, Rewritten, WellKeyed, RowidsDistinct, Formats, FeedOrder, RetiredRow, SameRow;
    if sections == [] {
      RowItself(db, k);
    } else {
      var s := sections[0];
      var v := RetireSection(db, t, s, now, revision, prepared).value;
      var u := RetireSections(db, t, sections, now, revision, prepared).value;
      RetireSectionIsExact(db, t, s, now, revision, prepared, k);
      RetireSectionKeeps(db, t, s, now, revision, prepared);
      InvIsFormats(db);
      RewrittenKeepsRevision(db, v, t.ref, revision);
      RewrittenBucket(db, v, t.ref, revision);
      forall x | x in sections[1..] && KeyOf(t.ref, x) in t.rows
        ensures KeyOf(t.ref, x) in v.v1 && v.v1[KeyOf(t.ref, x)].meta == t.rows[KeyOf(t.ref, x)].meta
      {
        var i :| 0 <= i < |sections[1..]| && sections[1..][i] == x;
        assert sections[i + 1] == x && x in sections;
        RetireSectionIsExact(db, t, s, now, revision, prepared, KeyOf(t.ref, x));
      }
      RetireSectionsAreExact(v, t, sections[1..], now, revision, prepared, k);
      RetireOneThenRest(db, v, u, t, sections, now, revision, k);
    }
  }

  lemma RetireOneThenRest(db: Db, v: Db, u: Db, t: RetireTuple, sections: seq<Section>, now: int, revision: int, k: Key)
    requires sections != [] && forall i, j | 0 <= i < j < |sections| :: sections[i] != sections[j]
    requires KeyOf(t.ref, sections[0]) in t.rows ==> RetiredRow(db, v, t, KeyOf(t.ref, sections[0]), now, revision)
    requires k != KeyOf(t.ref, sections[0]) || k !in t.rows ==> SameRow(db, v, k)
    requires k in t.rows && (exists s | s in sections[1..] :: k == KeyOf(t.ref, s)) ==> RetiredRow(v, u, t, k, now, revision)
    requires k !in t.rows || (forall s | s in sections[1..] :: k != KeyOf(t.ref, s)) ==> SameRow(v, u, k)
    ensures k in t.rows && (exists s | s in sections :: k == KeyOf(t.ref, s)) ==> RetiredRow(db, u, t, k, now, revision)
    ensures k !in t.rows || (forall s | s in sections :: k != KeyOf(t.ref, s)) ==> SameRow(db, u, k)
  {
    hide OpFor, Payload;
    forall s | s in sections[1..] ensures s in sections && s != sections[0] {
      var i :| 0 <= i < |sections[1..]| && sections[1..][i] == s;
      assert sections[i + 1] == s;
    }
    assert forall s | s in sections :: s == sections[0] || s in sections[1..];
    assert sections[0] in sections;
  }

  lemma RowItself(db: Db, k: Key)
    ensures SameRow(db, db, k)
  {
  }

  /** A captured tuple that has changed is left alone; one that has not is rewritten exactly, one
      revision above all it had reached, and no other row changes. */
  lemma RetiredTupleIsExact(db: Db, t: RetireTuple, now: int, prepared: set<Digest>, k: Key)
    requires Inv(db) && (forall op | op in t.ops :: OpFits(op)) && prepared <= db.bucket
    requires RetireTupleTx(db, t, now, prepared).Some?
    ensures var u := RetireTupleTx(db, t, now, prepared).value;
            && (RetireConflicts(db, t) ==> u == db)
            && (!RetireConflicts(db, t) && k in t.rows ==> RetiredRow(db, u, t, k, now, TupleRevision(db, t.ref) + 1))
            && (!RetireConflicts(db, t) && k !in t.rows ==> SameRow(db, u, k))
  {
    hide Inv, Remember, TupleRevision, RetireConflicts, RetireSections, RetireFits, OpFits, AnswersOnly, Answered, RetiredRow, SameRow,
      TupleKeys, Revision;
    if !RetireConflicts(db, t) {
      var s := Remember(db, t.ref);
      UnchangedRowsFit(db, t);
      RememberIsFaithful(db, t.ref);
      AnswersOnlyKeepsInv(db, s);
      AnswersOnlyRevisions(db, s);
      InvTupleRevision(s, t.ref);
      assert prepared <= s.bucket by { AnswersOnlyElsewhere(db, s); }
      CapturedRows(db, s, t);
      OrderIsWhole(t.ref, k);
      assert TupleRevision(s, t.ref) == TupleRevision(db, t.ref);
      RetireSectionsAreExact(s, t, SECTION_ORDER, now, TupleRevision(db, t.ref) + 1, prepared, k);
      RetiredFromRemembered(db, s, RetireTupleTx(db, t, now, prepared).value, t, k, now, TupleRevision(db, t.ref) + 1);
    }
  }

  lemma CapturedRows(db: Db, s: Db, t: RetireTuple)
    requires AnswersOnly(db, s) && !RetireConflicts(db, t)
    ensures forall k | k in t.rows :: k in s.v1 && s.v1[k].meta == t.rows[k].meta && k in TupleKeys(t.ref)
  {
    assert t.rows == RetireRows(db, t.ref);
  }

  lemma OrderIsWhole(ref: ItemRef, k: Key)
    ensures k in TupleKeys(ref) <==> exists s | s in SECTION_ORDER :: k == KeyOf(ref, s)
    ensures forall i, j | 0 <= i < j < |SECTION_ORDER| :: SECTION_ORDER[i] != SECTION_ORDER[j]
  {
    assert SECTION_ORDER[0] == Closed && SECTION_ORDER[1] == Packets && SECTION_ORDER[2] == Items && SECTION_ORDER[3] == Plans;
  }

  lemma RetiredFromRemembered(db: Db, s: Db, u: Db, t: RetireTuple, k: Key, now: int, revision: int)
    requires AnswersOnly(db, s)
    ensures k in t.rows && RetiredRow(s, u, t, k, now, revision) ==> RetiredRow(db, u, t, k, now, revision)
    ensures SameRow(s, u, k) ==> SameRow(db, u, k)
  {
    hide OpFor, Payload;
  }

  /** Published commits are exported with their own bodies; publishing is all or nothing and changes
      no other entry. */
  lemma {:induction false} PublishedCommitsAreExact(db: Db, repo: string, rs: seq<CommitRecord>, now: int, k: Key)
    requires PublishCommits(db, repo, rs, now).Some?
    ensures var u := PublishCommits(db, repo, rs, now).value;
            && (forall r | r in rs && Key(repo, Commits, r.id) == k :: k in u.exports && u.exports[k].digest == Some(Sha256(r.body)))
            && (k in db.exports ==> k in u.exports && u.exports[k] == db.exports[k])
            && (k in u.exports && k !in db.exports ==> exists r | r in rs :: Key(repo, Commits, r.id) == k)
    decreases |rs|
  {
    hide MaxImportRowid;
    if rs != [] {
      PublishedCommitsAreExact(PublishCommit(db, repo, rs[0], now).value, repo, rs[1..], now, k);
      assert forall r :: r in rs <==> r == rs[0] || r in rs[1..];
    }
  }

  /** The commit is published with another body already, or an earlier one of the call differs from it. */
  ghost predicate Differs(db: Db, repo: string, rs: seq<CommitRecord>, i: nat)
    requires i < |rs|
  {
    var k := Key(repo, Commits, rs[i].id);
    || (k in db.exports && db.exports[k].digest != Some(Sha256(rs[i].body)))
    || (exists j | 0 <= j < i :: rs[j].id == rs[i].id && rs[j].body != rs[i].body)
  }

  /** Publishing commits is refused exactly when one of them differs from what its identifier holds. */
  lemma {:induction false} CommitsRefusedExactlyWhen(db: Db, repo: string, rs: seq<CommitRecord>, now: int)
    ensures PublishCommits(db, repo, rs, now).None? <==> exists i | 0 <= i < |rs| :: Differs(db, repo, rs, i)
    decreases |rs|
  {
    hide MaxImportRowid, Differs;
    if rs != [] {
      var first := PublishCommit(db, repo, rs[0], now);
      assert first.None? <==> Differs(db, repo, rs, 0) by { FirstDiffers(db, repo, rs, now); }
      if first.Some? {
        CommitsRefusedExactlyWhen(first.value, repo, rs[1..], now);
        forall i | 0 <= i < |rs| - 1 ensures Differs(first.value, repo, rs[1..], i) <==> Differs(db, repo, rs, i + 1) {
          RestDiffers(db, repo, rs, now, i);
        }
        if i :| 0 <= i < |rs| && Differs(db, repo, rs, i) { assert Differs(first.value, repo, rs[1..], i - 1); }
      }
    }
  }

  lemma FirstDiffers(db: Db, repo: string, rs: seq<CommitRecord>, now: int)
    requires rs != []
    ensures PublishCommit(db, repo, rs[0], now).None? <==> Differs(db, repo, rs, 0)
  {
    hide MaxImportRowid;
  }

  lemma FirstLeaves(db: Db, repo: string, r: CommitRecord, now: int)
    requires PublishCommit(db, repo, r, now).Some?
    ensures var v := PublishCommit(db, repo, r, now).value;
            && (forall k :: k in v.exports <==> k in db.exports || k == Key(repo, Commits, r.id))
            && (forall k | k in db.exports :: v.exports[k] == db.exports[k])
            && v.exports[Key(repo, Commits, r.id)].digest == Some(Sha256(r.body))
  {
    hide MaxImportRowid;
  }

  lemma RestDiffers(db: Db, repo: string, rs: seq<CommitRecord>, now: int, i: nat)
    requires rs != [] && i < |rs| - 1 && PublishCommit(db, repo, rs[0], now).Some?
    ensures Differs(PublishCommit(db, repo, rs[0], now).value, repo, rs[1..], i) <==> Differs(db, repo, rs, i + 1)
  {
    hide PublishCommit;
    FirstLeaves(db, repo, rs[0], now);
    assert rs[1..][i] == rs[i + 1];
    if j :| 0 <= j < i && rs[1..][j].id == rs[i + 1].id && rs[1..][j].body != rs[i + 1].body {
      assert rs[j + 1].body != rs[i + 1].body;
    }
    if j :| 0 <= j < i + 1 && rs[j].id == rs[i + 1].id && rs[j].body != rs[i + 1].body {
      if j > 0 { assert rs[1..][j - 1] == rs[j]; }
    }
  }

  /** A sweep drops an import exactly when it was looked at and a canonical row agrees with its pointer. */
  lemma SweepIsExact(db: Db, among: set<Key>, k: Key)
    ensures var u := DropShadows(db, among);
            && u == db.(imports := u.imports)
            && (k in u.imports ==> k in db.imports && u.imports[k] == db.imports[k])
            && (k in db.imports && k !in u.imports <==>
                  && k in among && k in db.imports && !k.section.Commits? && Stored(db, k) && k in db.exports && !db.exports[k].imported
                  && db.exports[k].digest == MetaOf(db, k).digest && db.exports[k].revision == MetaOf(db, k).revision)
  {
  }
}

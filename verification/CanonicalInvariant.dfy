/** What holds of the canonical store in every reachable state, and why each write keeps it. */
module CanonicalInvariant {
  import opened Ordering
  import opened CanonicalTables
  import opened CanonicalTransactions

  /** Both formats hold tuple rows only, never under the same key. */
  ghost predicate WellKeyed(db: Db) {
    && (forall k | k in db.v1 :: !k.section.Commits? && db.v1[k].rowid >= 1 && db.v1[k].meta.revision >= 1)
    && (forall k | k in db.v2 :: !k.section.Commits? && db.v2[k].revision >= 1 && k !in db.v1)
  }

  /** A version 1 row has its body inline or chunked, exactly when it is live. */
  ghost predicate V1Bodies(db: Db) {
    && (forall k | k in db.chunks :: k in db.v1)
    && (forall k | k in db.v1 ::
          var d := db.v1[k].meta.digest;
          if d.None? then db.v1[k].inline.None? && k !in db.chunks
          else Bytes(d.value.body) <= MAX_FILE_BYTES && V1Body(db, k) == Some(d.value.body))
  }

  /** Every live version 2 row has its body in the bucket. */
  ghost predicate V2Bodies(db: Db) {
    forall k | k in db.v2 && db.v2[k].digest.Some? :: db.v2[k].digest.value in db.bucket
  }

  /** The read view and the canonical export rows agree on key, digest and revision. */
  ghost predicate Agreement(db: Db) {
    && (forall k | k in db.v1 :: k in db.exports && ExportAgrees(db.v1[k].meta, db.exports[k]))
    && (forall k | k in db.v2 :: k in db.exports && ExportAgrees(db.v2[k], db.exports[k]))
    && (forall k | k in db.exports && !db.exports[k].imported && !k.section.Commits? :: Stored(db, k))
  }

  /** Imported and commit pointers resolve in the import table. */
  ghost predicate Sourced(db: Db) {
    && (forall k | k in db.exports && (db.exports[k].imported || k.section.Commits?) && db.exports[k].digest.Some? ::
          k in db.imports && Sha256(db.imports[k].body) == db.exports[k].digest.value)
    && (forall k | k in db.imports :: k in db.exports)
  }

  /** Store revisions are unique and never ahead of the counter. */
  ghost predicate FeedOrder(db: Db) {
    && 0 <= db.exportRevision
    && (forall k | k in db.exports :: 1 <= db.exports[k].storeRevision <= db.exportRevision)
    && (forall j, k | j in db.exports && k in db.exports && db.exports[j].storeRevision == db.exports[k].storeRevision :: j == k)
  }

  ghost predicate Owned(db: Db) {
    && (forall k | k in db.v1 :: OwnerRef(db.v1[k].meta.owner) == RefOf(k))
    && (forall k | k in db.v2 :: OwnerRef(db.v2[k].owner) == RefOf(k))
  }

  /** A published receipt names a tuple revision that was reached, and no other receipt names
      the same one for its target. */
  ghost predicate ReceiptsFit(db: Db) {
    forall r | r in db.receipts && db.receipts[r].state.Published? ::
      db.receipts[r].commit.Some? && db.receipts[r].commit.value <= TupleRevision(db, OwnerRef(db.receipts[r].target))
  }

  ghost predicate ReceiptsUnique(db: Db) {
    forall r, s | r in db.receipts && s in db.receipts && db.receipts[r].state.Published? && db.receipts[s].state.Published?
                  && db.receipts[r].target == db.receipts[s].target && db.receipts[r].commit == db.receipts[s].commit :: r == s
  }

  ghost predicate Formats(db: Db) {
    && (db.format.V1? ==> db.v2 == map[] && db.tiering.None?)
    && (db.format.V2? ==> db.tiering.Some?)
  }

  /** Nothing the migration cursor has passed is lost: a version 1 row behind it lies above a
      recorded restart point. A completed migration has nothing left. */
  ghost predicate Frontier(db: Db) {
    db.tiering.Some? ==>
      var c := db.tiering.value;
      && 0 <= c.after
      && (c.deferred.Some? ==> 0 <= c.deferred.value <= c.after)
      && (forall k | k in db.v1 :: db.v1[k].rowid <= c.upper)
      && (forall k | k in db.v1 && db.v1[k].rowid <= c.after :: c.deferred.Some? && c.deferred.value < db.v1[k].rowid)
      && (c.completedAt.Some? ==> Drained(db))
  }

  ghost predicate Inv(db: Db) {
    && WellKeyed(db) && RowidsDistinct(db.v1) && V1Bodies(db) && V2Bodies(db) && Agreement(db) && Sourced(db)
    && FeedOrder(db) && Owned(db) && ReceiptsFit(db) && ReceiptsUnique(db) && Formats(db) && Frontier(db)
  }

  lemma EmptyIsConsistent()
    ensures Inv(EMPTY)
  {
  }

  // ----- placing one row -----

  /** What every canonical write asks of its row. */
  ghost predicate Placeable(db: Db, k: Key, body: Option<Body>, meta: Meta) {
    && !k.section.Commits?
    && meta.digest == DigestOf(body)
    && (body.Some? ==> Bytes(body.value) <= MAX_FILE_BYTES)
    && (body.Some? && db.format.V2? ==> Sha256(body.value) in db.bucket)
    && meta.revision >= 1
    && meta.revision >= TupleRevision(db, RefOf(k))
    && OwnerRef(meta.owner) == RefOf(k)
  }

  /** The fields of the tables after a write, one by one. */
  ghost predicate Placed(db: Db, u: Db, k: Key, body: Option<Body>, meta: Meta, rowid: int) {
    && u.format == db.format && u.bucket == db.bucket && u.receipts == db.receipts
    && u.deliveries == db.deliveries && u.answers == db.answers && u.tiering == db.tiering
    && u.exportRevision == db.exportRevision + 1
    && u.exports == db.exports[k := ExportRow(meta.digest, meta.revision, u.exportRevision, false, meta.updatedAt)]
    && u.imports == db.imports - {k}
    && (db.format.V2? ==> u.v2 == db.v2[k := meta] && u.v1 == db.v1 - {k} && u.chunks == db.chunks - {k})
    && (db.format.V1? ==>
          && u.v2 == db.v2
          && (k in db.v1 ==> rowid == db.v1[k].rowid)
          && (k !in db.v1 ==> rowid >= 1 && forall j | j in db.v1 :: db.v1[j].rowid < rowid)
          && u.v1 == db.v1[k := V1Row(rowid, if Chunked(body) then None else body, meta)]
          && u.chunks == if Chunked(body) then db.chunks[k := body.value] else db.chunks - {k})
  }

  lemma PlaceIsPlaced(db: Db, k: Key, body: Option<Body>, meta: Meta) returns (rowid: int)
    ensures Placed(db, Place(db, k, body, meta), k, body, meta, rowid)
  {
    hide Chunked, MaxRowid;
    rowid := NewRowid(db.v1, k);
  }

  lemma PlacedKeepsWellKeyed(db: Db, u: Db, k: Key, body: Option<Body>, meta: Meta, rowid: int)
    requires WellKeyed(db) && Formats(db) && Placed(db, u, k, body, meta, rowid)
    requires !k.section.Commits? && meta.revision >= 1
    ensures WellKeyed(u) && Formats(u)
  {
  }

  lemma PlacedKeepsRowids(db: Db, u: Db, k: Key, body: Option<Body>, meta: Meta, rowid: int)
    requires RowidsDistinct(db.v1) && Placed(db, u, k, body, meta, rowid)
    ensures RowidsDistinct(u.v1)
  {
  }

  lemma PlacedKeepsBodies(db: Db, u: Db, k: Key, body: Option<Body>, meta: Meta, rowid: int)
    requires V1Bodies(db) && V2Bodies(db) && Placed(db, u, k, body, meta, rowid)
    requires meta.digest == DigestOf(body)
    requires body.Some? ==> Bytes(body.value) <= MAX_FILE_BYTES
    requires body.Some? && db.format.V2? ==> Sha256(body.value) in db.bucket
    ensures V1Bodies(u) && V2Bodies(u)
  {
    forall j | j in u.v1 && j != k ensures j in db.v1 && u.v1[j] == db.v1[j] && V1Body(u, j) == V1Body(db, j) {}
  }

  lemma PlacedKeepsAgreement(db: Db, u: Db, k: Key, body: Option<Body>, meta: Meta, rowid: int)
    requires Agreement(db) && Formats(db) && Placed(db, u, k, body, meta, rowid)
    ensures Agreement(u)
  {
  }

  lemma PlacedKeepsSourced(db: Db, u: Db, k: Key, body: Option<Body>, meta: Meta, rowid: int)
    requires Sourced(db) && Placed(db, u, k, body, meta, rowid) && !k.section.Commits?
    ensures Sourced(u)
  {
  }

  lemma PlacedKeepsFeedOrder(db: Db, u: Db, k: Key, body: Option<Body>, meta: Meta, rowid: int)
    requires FeedOrder(db) && Placed(db, u, k, body, meta, rowid)
    ensures FeedOrder(u)
  {
  }

  lemma PlacedKeepsOwned(db: Db, u: Db, k: Key, body: Option<Body>, meta: Meta, rowid: int)
    requires Owned(db) && Placed(db, u, k, body, meta, rowid) && OwnerRef(meta.owner) == RefOf(k)
    ensures Owned(u)
  {
  }

  lemma PlacedRevision(db: Db, u: Db, k: Key, body: Option<Body>, meta: Meta, rowid: int, j: Key)
    requires Placed(db, u, k, body, meta, rowid) && Formats(db)
    ensures Revision(u, j) == if j == k then meta.revision else Revision(db, j)
  {
  }

  lemma PlacedRaisesTuples(db: Db, u: Db, k: Key, body: Option<Body>, meta: Meta, rowid: int, ref: ItemRef)
    requires Placed(db, u, k, body, meta, rowid) && Formats(db)
    requires meta.revision >= Revision(db, k)
    ensures TupleRevision(u, ref) >= TupleRevision(db, ref)
  {
    hide TupleRevision, Revision, Formats, Placed;
    forall s: Section | !s.Commits? ensures Revision(db, KeyOf(ref, s)) <= Revision(u, KeyOf(ref, s)) {
      PlacedRevision(db, u, k, body, meta, rowid, KeyOf(ref, s));
    }
  }

  lemma SameReceiptsKeepUnique(db: Db, u: Db)
    requires ReceiptsUnique(db) && u.receipts == db.receipts
    ensures ReceiptsUnique(u)
  {
  }

  lemma RaisedTuplesKeepFit(db: Db, u: Db)
    requires ReceiptsFit(db) && u.receipts == db.receipts
    requires forall ref :: TupleRevision(u, ref) >= TupleRevision(db, ref)
    ensures ReceiptsFit(u)
  {
    hide TupleRevision;
  }

  lemma PlacedKeepsReceipts(db: Db, u: Db, k: Key, body: Option<Body>, meta: Meta, rowid: int)
    requires ReceiptsFit(db) && ReceiptsUnique(db) && Formats(db)
    requires Placed(db, u, k, body, meta, rowid) && meta.revision >= Revision(db, k)
    ensures ReceiptsFit(u) && ReceiptsUnique(u)
  {
    assert u.receipts == db.receipts;
    hide TupleRevision, Revision, Formats, Placed, ReceiptsFit, ReceiptsUnique;
    SameReceiptsKeepUnique(db, u);
    forall ref ensures TupleRevision(u, ref) >= TupleRevision(db, ref) {
      PlacedRaisesTuples(db, u, k, body, meta, rowid, ref);
    }
    RaisedTuplesKeepFit(db, u);
  }

  lemma PlacedKeepsFrontier(db: Db, u: Db, k: Key, body: Option<Body>, meta: Meta, rowid: int)
    requires Frontier(db) && Formats(db) && Placed(db, u, k, body, meta, rowid)
    ensures Frontier(u)
  {
  }

  lemma PlaceKeepsInv(db: Db, k: Key, body: Option<Body>, meta: Meta)
    requires Inv(db) && Placeable(db, k, body, meta)
    ensures Inv(Place(db, k, body, meta))
  {
    assert Revision(db, k) <= TupleRevision(db, RefOf(k)) by { assert k == KeyOf(RefOf(k), k.section); }
    hide WellKeyed, RowidsDistinct, V1Bodies, V2Bodies, Agreement, Sourced, FeedOrder, Owned, ReceiptsFit,
      ReceiptsUnique, Formats, Frontier, TupleRevision, Revision, Place, Placed;
    var rowid := PlaceIsPlaced(db, k, body, meta);
    var u := Place(db, k, body, meta);
    PlacedKeepsWellKeyed(db, u, k, body, meta, rowid);
    PlacedKeepsRowids(db, u, k, body, meta, rowid);
    PlacedKeepsBodies(db, u, k, body, meta, rowid);
    PlacedKeepsAgreement(db, u, k, body, meta, rowid);
    PlacedKeepsSourced(db, u, k, body, meta, rowid);
    PlacedKeepsFeedOrder(db, u, k, body, meta, rowid);
    PlacedKeepsOwned(db, u, k, body, meta, rowid);
    PlacedKeepsReceipts(db, u, k, body, meta, rowid);
    PlacedKeepsFrontier(db, u, k, body, meta, rowid);
  }
}

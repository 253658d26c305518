/**
 The tables of the canonical record store, and what can be read from one state of them.
 A digest carries the body it was computed from, which makes it injective; the body bucket is
 then the set of digests whose bodies are stored. Byte lengths are those of the body, and a row
 is deleted exactly when it has no digest. Identifiers that some query orders are integers.
 */
module CanonicalTables {
  import opened Ordering

  datatype Section = Items | Closed | Plans | Packets | Commits

  /** A file: its octets, and what the front matter says that the store looks at. */
  datatype Body = Body(octets: seq<bv8>, completesReview: bool, namesPacket: bool)

  datatype Digest = Sha256(body: Body)

  datatype Key = Key(repo: string, section: Section, id: int)

  /** One item's record tuple: the four sections under one repository slug and number. */
  datatype ItemRef = ItemRef(repo: string, id: int)

  /** The identity a row was written under: a publication's target, or a reconciliation key. */
  datatype Owner = Target(owner: string, name: string, id: int) | Reconciler(repo: string, id: int)

  datatype Meta = Meta(digest: Option<Digest>, revision: int, owner: Owner, generation: int, updatedAt: int)

  /** A version 1 row; a long body lives in the chunk table instead of inline. */
  datatype V1Row = V1Row(rowid: int, inline: Option<Body>, meta: Meta)

  datatype ExportRow = ExportRow(digest: Option<Digest>, revision: int, storeRevision: int, imported: bool, updatedAt: int)

  datatype ImportRow = ImportRow(rowid: int, body: Body)

  datatype Lifecycle = Router | RouterDeferredCoverage | RouterNotRequired | Requeue
    | TargetMissing | TargetClosed | GuardedOpen | PolicyNoop

  datatype ReceiptState = Pending | Committing | Retryable | Published | Superseded | Failed {
    predicate Terminal() { Published? || Superseded? || Failed? }
  }

  datatype ReceiptKey = ReceiptKey(fence: int, revision: int)

  datatype StoredOp = StoredOp(section: Section, digest: Option<Digest>)

  datatype Receipt = Receipt(
    target: Owner,
    generation: int,
    ops: seq<StoredOp>,
    lifecycle: Option<Lifecycle>,
    state: ReceiptState,
    updatedAt: int,
    commit: Option<int>)

  /** What a reconciliation delivery is bound to. */
  datatype Fingerprint = Fingerprint(ref: ItemRef, ops: seq<StoredOp>, expected: map<Section, Option<Digest>>)

  datatype Delivery = Delivery(bound: Fingerprint, revision: int, receivedAt: int)

  datatype Checkpoint = Checkpoint(
    plan: string,
    upper: int,
    after: int,
    deferred: Option<int>,
    scanned: int,
    migrated: int,
    sourceBytes: int,
    conflicts: int,
    startedAt: int,
    completedAt: Option<int>)

  datatype Format = V1 | V2

  datatype Db = Db(
    format: Format,
    v1: map<Key, V1Row>,
    chunks: map<Key, Body>,
    v2: map<Key, Meta>,
    bucket: set<Digest>,
    exports: map<Key, ExportRow>,
    exportRevision: int,
    imports: map<Key, ImportRow>,
    receipts: map<ReceiptKey, Receipt>,
    deliveries: map<int, Delivery>,
    answers: map<ItemRef, bool>,
    tiering: Option<Checkpoint>)

  const INLINE_BYTES := 1572864
  const MAX_FILE_BYTES := 2097152
  const PASS_BYTES := 8388608
  const PASS_ROWS := 64
  const PASS_TUPLES := 4
  const RETENTION_MS := 604800000
  const PRUNE_LIMIT := 256

  const EMPTY := Db(V1, map[], map[], map[], {}, map[], 0, map[], map[], map[], map[], None)

  function Bytes(b: Body): nat { |b.octets| }

  function DigestOf(b: Option<Body>): Option<Digest> {
    if b.Some? then Some(Sha256(b.value)) else None
  }

  function DigestBytes(d: Option<Digest>): nat {
    if d.Some? then Bytes(d.value.body) else 0
  }

  /** Two owner and name pairs can share a slug. */
  function Slug(owner: string, name: string): string { owner + "-" + name }

  function RefOf(k: Key): ItemRef { ItemRef(k.repo, k.id) }

  function KeyOf(ref: ItemRef, section: Section): Key { Key(ref.repo, section, ref.id) }

  function OwnerRef(o: Owner): ItemRef {
    match o
    case Target(owner, name, id) => ItemRef(Slug(owner, name), id)
    case Reconciler(repo, id) => ItemRef(repo, id)
  }

  predicate Primary(s: Section) { s.Items? || s.Closed? }

  // ----- the read view -----

  predicate Stored(db: Db, k: Key) { k in db.v1 || k in db.v2 }

  /** The union view: version 2 wins, version 1 shows through where it has no row. */
  function MetaOf(db: Db, k: Key): Meta
    requires Stored(db, k)
  {
    if k in db.v2 then db.v2[k] else db.v1[k].meta
  }

  function Revision(db: Db, k: Key): int {
    if Stored(db, k) then MetaOf(db, k).revision else 0
  }

  /** The highest revision any section of the tuple has. */
  function TupleRevision(db: Db, ref: ItemRef): (r: int)
    ensures forall s: Section | !s.Commits? :: Revision(db, KeyOf(ref, s)) <= r
    ensures exists s: Section | !s.Commits? :: r == Revision(db, KeyOf(ref, s))
  {
    var i, c := Revision(db, KeyOf(ref, Items)), Revision(db, KeyOf(ref, Closed));
    var p, d := Revision(db, KeyOf(ref, Plans)), Revision(db, KeyOf(ref, Packets));
    var r := Max(Max(i, c), Max(p, d));
    assert forall s: Section :: s.Items? || s.Closed? || s.Plans? || s.Packets? || s.Commits?;
    assert r == i || r == c || r == p || r == d;
    r
  }

  function V1Body(db: Db, k: Key): Option<Body> {
    if k !in db.v1 then None
    else if db.v1[k].inline.Some? then db.v1[k].inline
    else if k in db.chunks then Some(db.chunks[k])
    else None
  }

  /** The body an export entry resolves to; None is the consistency error. */
  function ExportBody(db: Db, k: Key): Option<Body>
    requires k in db.exports && db.exports[k].digest.Some?
  {
    var row := db.exports[k];
    if row.imported || k.section.Commits? then
      if k in db.imports then Some(db.imports[k].body) else None
    else if k in db.v2 then
      if db.v2[k].digest == row.digest && db.v2[k].revision == row.revision && row.digest.value in db.bucket
      then Some(row.digest.value.body) else None
    else V1Body(db, k)
  }

  // ----- the lifetime "answered" fact -----

  datatype Evidence = Nothing | Answers | StaleSource

  /** The retained publications that wrote the row under `k`. */
  function Provenance(db: Db, k: Key): set<ReceiptKey>
    requires Stored(db, k)
  {
    set r | r in db.receipts && Wrote(db.receipts[r], MetaOf(db, k))
  }

  predicate Wrote(r: Receipt, meta: Meta) {
    r.state.Published? && r.target == meta.owner && r.commit == Some(meta.revision)
  }

  /** What one primary section still proves. Version 2 rows prove nothing by themselves. */
  function EvidenceAt(db: Db, k: Key): Evidence {
    if k in db.v2 || k !in db.exports || db.exports[k].digest.None? then Nothing
    else
      var body := ExportBody(db, k);
      if body.None? || !body.value.completesReview || k !in db.v1 then Nothing
      else if exists r | r in Provenance(db, k) :: db.receipts[r].lifecycle == Some(Requeue) then StaleSource
      else if exists r | r in Provenance(db, k) :: db.receipts[r].lifecycle.Some? then Answers
      else Nothing
  }

  predicate LazyAnswer(db: Db, ref: ItemRef) {
    EvidenceAt(db, KeyOf(ref, Items)).Answers? || EvidenceAt(db, KeyOf(ref, Closed)).Answers?
  }

  predicate LazyStale(db: Db, ref: ItemRef) {
    EvidenceAt(db, KeyOf(ref, Items)).StaleSource? || EvidenceAt(db, KeyOf(ref, Closed)).StaleSource?
  }

  /** What hasCompletedPullRequestReview returns. */
  predicate Answered(db: Db, ref: ItemRef) {
    if ref in db.answers then db.answers[ref] else LazyAnswer(db, ref)
  }

  /** What it leaves behind: the answer, or the fact that a stale source did not answer. */
  function Remember(db: Db, ref: ItemRef): Db {
    if ref in db.answers then db
    else if LazyAnswer(db, ref) || LazyStale(db, ref) then
      db.(answers := db.answers[ref := LazyAnswer(db, ref)])
    else db
  }
}

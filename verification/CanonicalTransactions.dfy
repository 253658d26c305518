/** Every transaction of the canonical record store, as a function from tables to tables. */
module CanonicalTransactions {
  import opened Ordering
  import opened CanonicalTables

  /** One file of a plan. `stripped` is the view to store when retired cache data is dropped. */
  datatype Op = Op(section: Section, content: Option<Body>, stripped: Option<Body>)

  datatype Plan = Plan(
    owner: string,
    name: string,
    id: int,
    fence: int,
    revision: int,
    generation: int,
    ops: seq<Op>,
    lifecycle: Option<Lifecycle>) {
    function Target(): Owner { Owner.Target(owner, name, id) }
    function Ref(): ItemRef { OwnerRef(Target()) }
  }

  datatype Mutation = Mutation(delivery: int, repo: string, id: int, ops: seq<Op>, expected: map<Section, Option<Digest>>) {
    function Ref(): ItemRef { ItemRef(repo, id) }
  }

  /** What plan validation guarantees about the files of one tuple. */
  predicate ValidOps(ops: seq<Op>) {
    && 1 <= |ops| <= 4
    && (forall op | op in ops :: !op.section.Commits?)
    && (forall i, j | 0 <= i < j < |ops| :: ops[i].section != ops[j].section)
    && (forall op | op in ops && op.stripped.Some? :: op.content.Some? && Primary(op.section))
    && (forall op | op in ops && op.content.Some? :: Bytes(op.content.value) <= MAX_FILE_BYTES)
    && (forall op | op in ops && op.stripped.Some? :: Bytes(op.stripped.value) <= MAX_FILE_BYTES)
  }

  predicate ValidPlan(plan: Plan) {
    ValidOps(plan.ops) && plan.revision >= 1 && plan.generation >= 1 && plan.id >= 1
  }

  predicate ValidMutation(m: Mutation) {
    ValidOps(m.ops) && m.id >= 1
  }

  // ----- one canonical write -----

  function Payload(op: Op): Option<Body> {
    if op.stripped.Some? then op.stripped else op.content
  }

  function MaxRowid(v1: map<Key, V1Row>): (m: int)
    ensures forall k | k in v1 :: v1[k].rowid <= m
    ensures m >= 0
  {
    var rowids := set k | k in v1 :: v1[k].rowid;
    assert forall k | k in v1 :: v1[k].rowid in rowids;
    if rowids == {} then 0 else Max(0, GreatestOf(rowids))
  }

  function NewRowid(v1: map<Key, V1Row>, k: Key): int {
    if k in v1 then v1[k].rowid else MaxRowid(v1) + 1
  }

  predicate Chunked(body: Option<Body>) { body.Some? && Bytes(body.value) > INLINE_BYTES }

  /** The row, in the format the durable version names; the export pointer, moved to this version
      under a fresh store revision; and the import it shadows, gone. */
  function Place(db: Db, k: Key, body: Option<Body>, meta: Meta): Db {
    var store := db.exportRevision + 1;
    var exports := db.exports[k := ExportRow(meta.digest, meta.revision, store, false, meta.updatedAt)];
    if db.format.V2? then
      db.(
      v2 := db.v2[k := meta],
      v1 := db.v1 - {k},
      chunks := db.chunks - {k},
      exports := exports, exportRevision := store, imports := db.imports - {k})
    else
      db.(
      v1 := db.v1[k := V1Row(NewRowid(db.v1, k), if Chunked(body) then None else body, meta)],
      chunks := if Chunked(body) then db.chunks[k := body.value] else db.chunks - {k},
      exports := exports, exportRevision := store, imports := db.imports - {k})
  }

  /** Who writes, and on whose behalf. `credit` is set for review publications only: whether a
      completed review in the payload answers the item. */
  datatype Writer = Writer(ref: ItemRef, owner: Owner, generation: int, now: int, revision: int,
                           prepared: set<Digest>, credit: Option<bool>)

  /** None is the "canonical body unavailable" error: a live body nobody prepared. */
  function WriteOp(db: Db, op: Op, w: Writer): Option<Db> {
    var k := KeyOf(w.ref, op.section);
    var seeded := if Primary(op.section) then Remember(db, w.ref) else db;
    var body := Payload(op);
    var meta := Meta(DigestOf(body), w.revision, w.owner, w.generation, w.now);
    if db.format.V2? && body.Some? && Sha256(body.value) !in w.prepared then None
    else
      Some(Credit(Place(seeded, k, body, meta), op, w))
  }

  /** Only a review publication's own complete report can establish the answer; a stale-source
      requeue records that it did not. */
  function Credit(db: Db, op: Op, w: Writer): Db {
    if w.credit.Some? && Primary(op.section) && op.content.Some? && op.content.value.completesReview then
      db.(answers := db.answers[w.ref := w.credit.value || (w.ref in db.answers && db.answers[w.ref])])
    else db
  }

  function WriteAll(db: Db, ops: seq<Op>, w: Writer): Option<Db>
    decreases |ops|
  {
    if ops == [] then Some(db)
    else
      var first := WriteOp(db, ops[0], w);
      if first.None? then None else WriteAll(first.value, ops[1..], w)
  }

  // ----- direct publication -----

  function Writes(op: Op): bool { Primary(op.section) && op.content.Some? }

  function PrimaryWrites(ops: seq<Op>): seq<Op> {
    if ops == [] then []
    else if Writes(ops[0]) then [ops[0]] + PrimaryWrites(ops[1..])
    else PrimaryWrites(ops[1..])
  }

  function AddDelete(ops: seq<Op>, section: Section): seq<Op> {
    if exists op | op in ops :: op.section == section then ops else ops + [Op(section, None, None)]
  }

  /** A primary write retires the sections it replaces; a primary delete retires its sidecars.
      None: the plan writes both primary sections. */
  function TupleOps(ops: seq<Op>): Option<seq<Op>> {
    var writes := PrimaryWrites(ops);
    if |writes| > 1 then None
    else if |writes| == 1 then
      var primary := writes[0];
      var a := AddDelete(ops, if primary.section.Items? then Closed else Items);
      var b := if primary.section.Closed? then AddDelete(a, Plans) else a;
      Some(if primary.content.Some? && !primary.content.value.namesPacket then AddDelete(b, Packets) else b)
    else if exists op | op in ops :: Primary(op.section) then
      Some(AddDelete(AddDelete(ops, Plans), Packets))
    else Some(ops)
  }

  function StoredOps(ops: seq<Op>): seq<StoredOp> {
    if ops == [] then [] else [StoredOp(ops[0].section, DigestOf(ops[0].content))] + StoredOps(ops[1..])
  }

  function TerminalAges(db: Db, cutoff: int): (ages: map<ReceiptKey, Rank>)
    ensures Distinct(ages)
  {
    map r | r in db.receipts && db.receipts[r].state.Terminal() && db.receipts[r].updatedAt <= cutoff ::
      Rank(db.receipts[r].updatedAt, r.fence, r.revision)
  }

  function Expired(db: Db, now: int): seq<ReceiptKey> {
    Limit(Sorted(TerminalAges(db, now - RETENTION_MS)), PRUNE_LIMIT)
  }

  function RememberEach(db: Db, rs: seq<ReceiptKey>): Db
    decreases |rs|
  {
    if rs == [] then db
    else if rs[0] in db.receipts && db.receipts[rs[0]].state.Published? then
      RememberEach(Remember(db, OwnerRef(db.receipts[rs[0]].target)), rs[1..])
    else RememberEach(db, rs[1..])
  }

  function Drop(db: Db, rs: set<ReceiptKey>): Db {
    db.(receipts := db.receipts - rs)
  }

  /** Old terminal receipts go, after what they prove has been remembered. */
  function Prune(db: Db, now: int): Db {
    var expired := Expired(db, now);
    Drop(RememberEach(db, expired), Members(expired))
  }

  datatype Verdict = Accepted(revision: int) | Deduped | SupersededPlan
    | ConflictingRetry | BodyUnavailable | InvalidTuple

  predicate SamePayload(r: Receipt, plan: Plan) {
    r.target == plan.Target() && r.ops == StoredOps(plan.ops) && r.lifecycle == plan.lifecycle
  }

  function ReceiptOf(plan: Plan, state: ReceiptState, now: int, commit: Option<int>): Receipt {
    Receipt(plan.Target(), plan.generation, StoredOps(plan.ops), plan.lifecycle, state, now, commit)
  }

  predicate NewerRetained(db: Db, fence: int, revision: int) {
    exists r | r in db.receipts :: r.fence == fence && r.revision > revision
  }

  function PlanWriter(plan: Plan, now: int, revision: int, prepared: set<Digest>): Writer {
    Writer(plan.Ref(), plan.Target(), plan.generation, now, revision, prepared, Some(plan.lifecycle != Some(Requeue)))
  }

  datatype Accepting = Accepting(db: Db, verdict: Verdict)

  function AcceptPlan(db: Db, plan: Plan, now: int, prepared: set<Digest>): Accepting {
    var ops := TupleOps(plan.ops);
    if ops.None? then Accepting(db, InvalidTuple)
    else
      var pruned := Prune(db, now);
      var key := ReceiptKey(plan.fence, plan.revision);
      if key in pruned.receipts && pruned.receipts[key].state.Terminal() then
        if !SamePayload(pruned.receipts[key], plan) then Accepting(db, ConflictingRetry)
        else Accepting(pruned, if pruned.receipts[key].state.Superseded? then SupersededPlan else Deduped)
      else
        var open := Drop(pruned, {key});
        if NewerRetained(open, plan.fence, plan.revision) then
          Accepting(open.(receipts := open.receipts[key := ReceiptOf(plan, Superseded, now, None)]), SupersededPlan)
        else
          var revision := Max(plan.revision, TupleRevision(open, plan.Ref()) + 1);
          var written := WriteAll(open, ops.value, PlanWriter(plan, now, revision, prepared));
          if written.None? then Accepting(db, BodyUnavailable)
          else
            Accepting(
              written.value.(receipts := written.value.receipts[key := ReceiptOf(plan, Published, now, Some(revision))]),
              Accepted(revision))
  }

  /** The bodies a request stores before its transaction; format 1 stores none. */
  function PrepareWrites(db: Db, ops: seq<Op>): set<Digest> {
    if db.format.V1? then {} else set op | op in ops && Payload(op).Some? :: Sha256(Payload(op).value)
  }

  /** Whether a publication could still write, told from the receipts a prune would retain. */
  predicate NeedsBodies(db: Db, plan: Plan, now: int) {
    var gone := Members(Expired(db, now));
    var key := ReceiptKey(plan.fence, plan.revision);
    && !(key in db.receipts && key !in gone && db.receipts[key].state.Terminal())
    && !(exists r | r in db.receipts && r !in gone :: r.fence == plan.fence && r.revision > plan.revision)
  }

  // ----- tuple compare-and-swap -----

  datatype MoveVerdict = Moved(revision: int) | MoveDeduped(revision: int) | BoundElsewhere | TupleChanged | MoveUnavailable

  datatype Moving = Moving(db: Db, verdict: MoveVerdict)

  function DeliveryAges(db: Db, cutoff: int): (ages: map<int, Rank>)
    ensures Distinct(ages)
  {
    map d | d in db.deliveries && db.deliveries[d].receivedAt <= cutoff :: Rank(db.deliveries[d].receivedAt, d, 0)
  }

  function PruneDeliveries(db: Db, now: int): Db {
    db.(deliveries := db.deliveries - Members(Limit(Sorted(DeliveryAges(db, now - RETENTION_MS)), PRUNE_LIMIT)))
  }

  /** The digest a mutation must have seen: the canonical row, or else the exported import. */
  function CurrentDigest(db: Db, k: Key): Option<Digest> {
    if Stored(db, k) then MetaOf(db, k).digest
    else if k in db.exports then db.exports[k].digest
    else None
  }

  function ExpectedDigest(m: Mutation, s: Section): Option<Digest> {
    if s in m.expected then m.expected[s] else None
  }

  predicate Unchanged(db: Db, m: Mutation) {
    forall op | op in m.ops :: CurrentDigest(db, KeyOf(m.Ref(), op.section)) == ExpectedDigest(m, op.section)
  }

  function MoveTuple(db: Db, m: Mutation, now: int, prepared: set<Digest>): Moving {
    var pruned := PruneDeliveries(db, now);
    var bound := Fingerprint(m.Ref(), StoredOps(m.ops), m.expected);
    if m.delivery in pruned.deliveries then
      if pruned.deliveries[m.delivery].bound != bound then Moving(db, BoundElsewhere)
      else Moving(pruned, MoveDeduped(pruned.deliveries[m.delivery].revision))
    else if !Unchanged(pruned, m) then Moving(db, TupleChanged)
    else
      var revision := TupleRevision(pruned, m.Ref()) + 1;
      var w := Writer(m.Ref(), Reconciler(m.repo, m.id), 1, now, revision, prepared, None);
      var written := WriteAll(pruned, m.ops, w);
      if written.None? then Moving(db, MoveUnavailable)
      else
        Moving(written.value.(deliveries := written.value.deliveries[m.delivery := Delivery(bound, revision, now)]),
               Moved(revision))
  }

  // ----- the version 1 to version 2 migration -----

  function Activate(db: Db, plan: string, now: int): Db {
    if db.format.V1? && db.tiering.None? then
      db.(format := V2,
          tiering := Some(Checkpoint(plan, MaxRowid(db.v1), 0, None, 0, 0, 0, 0, now, None)))
    else db
  }

  datatype SnapshotRow = SnapshotRow(meta: Meta, format: Format)

  datatype Snapshot = Snapshot(rows: map<Key, SnapshotRow>, exports: map<Key, ExportRow>)

  function TupleKeys(ref: ItemRef): set<Key> {
    {KeyOf(ref, Items), KeyOf(ref, Closed), KeyOf(ref, Plans), KeyOf(ref, Packets)}
  }

  function FormatOf(db: Db, k: Key): Format { if k in db.v2 then V2 else V1 }

  function TakeSnapshot(db: Db, ref: ItemRef): Snapshot {
    Snapshot(
      map k | k in TupleKeys(ref) && Stored(db, k) :: SnapshotRow(MetaOf(db, k), FormatOf(db, k)),
      map k | k in TupleKeys(ref) && k in db.exports :: db.exports[k])
  }

  function Legacy(s: Snapshot): set<Key> {
    set k | k in s.rows && s.rows[k].format.V1?
  }

  function LegacySize(s: Snapshot, k: Key): nat {
    if k in s.rows && s.rows[k].format.V1? then DigestBytes(s.rows[k].meta.digest) else 0
  }

  function LegacyBytes(s: Snapshot, ref: ItemRef): nat {
    LegacySize(s, KeyOf(ref, Items)) + LegacySize(s, KeyOf(ref, Closed))
    + LegacySize(s, KeyOf(ref, Plans)) + LegacySize(s, KeyOf(ref, Packets))
  }

  datatype PassTuple = PassTuple(ref: ItemRef, snapshot: Snapshot)

  datatype Pass = Pass(checkpoint: Checkpoint, tuples: seq<PassTuple>, after: int, bytes: int, scanned: int, end: bool)

  /** The version 1 rows still ahead of the cursor. */
  function Ahead(db: Db, c: Checkpoint): map<Key, Rank> {
    map k | k in db.v1 && c.after < db.v1[k].rowid <= c.upper :: Rank(db.v1[k].rowid, 0, 0)
  }

  ghost predicate RowidsDistinct(v1: map<Key, V1Row>) {
    forall j, k | j in v1 && k in v1 && v1[j].rowid == v1[k].rowid :: j == k
  }

  datatype Scan = Scan(tuples: seq<PassTuple>, seen: set<ItemRef>, after: int, bytes: int)

  predicate Migratable(db: Db, s: Snapshot) {
    forall k | k in Legacy(s) && s.rows[k].meta.digest.Some? ::
      V1Body(db, k).Some? && DigestBytes(s.rows[k].meta.digest) <= MAX_FILE_BYTES
  }

  datatype Scanned = Go(next: Scan) | Stop | Fail

  function ScanRow(db: Db, k: Key, s: Scan): Scanned
    requires k in db.v1
  {
    var ref := RefOf(k);
    if ref in s.seen then Go(s.(after := db.v1[k].rowid))
    else if |s.tuples| == PASS_TUPLES then Stop
    else
      var snapshot := TakeSnapshot(db, ref);
      var size := LegacyBytes(snapshot, ref);
      if size > PASS_BYTES then Fail
      else if s.bytes + size > PASS_BYTES then Stop
      else if !Migratable(db, snapshot) then Fail
      else Go(Scan(s.tuples + [PassTuple(ref, snapshot)], s.seen + {ref}, db.v1[k].rowid, s.bytes + size))
  }

  /** Whole tuples in row order until four are taken or the byte budget is spent; None is the
      consistency error. */
  function ScanTuples(db: Db, candidates: seq<Key>, s: Scan): Option<Scan>
    requires forall k | k in candidates :: k in db.v1
    decreases |candidates|
  {
    if candidates == [] then Some(s)
    else
      match ScanRow(db, candidates[0], s)
      case Go(next) => ScanTuples(db, candidates[1..], next)
      case Stop => Some(s)
      case Fail => None
  }

  function Candidates(db: Db, c: Checkpoint): (q: seq<Key>)
    requires RowidsDistinct(db.v1)
    ensures forall k | k in q :: k in db.v1
  {
    var q := Limit(Sorted(Ahead(db, c)), PASS_ROWS);
    assert forall k | k in q :: k in Sorted(Ahead(db, c));
    q
  }

  function CountThrough(db: Db, q: seq<Key>, after: int): nat
    requires forall k | k in q :: k in db.v1
  {
    if q == [] then 0 else (if db.v1[q[0]].rowid <= after then 1 else 0) + CountThrough(db, q[1..], after)
  }

  function PreparePass(db: Db): Option<Pass>
    requires RowidsDistinct(db.v1)
  {
    if db.format.V1? || db.tiering.None? then None
    else
      var c := db.tiering.value;
      var q := Candidates(db, c);
      var s := ScanTuples(db, q, Scan([], {}, c.after, 0));
      if s.None? then None
      else
        var last := if q == [] then c.after else db.v1[q[|q| - 1]].rowid;
        Some(Pass(c, s.value.tuples, s.value.after, s.value.bytes, CountThrough(db, q, s.value.after),
                  |q| < PASS_ROWS && s.value.after == last))
  }

  /** The bodies a pass stores in the bucket before it may commit. */
  function PassBodies(pass: Pass): set<Digest> {
    set t, k | t in pass.tuples && k in Legacy(t.snapshot) && t.snapshot.rows[k].meta.digest.Some? ::
      t.snapshot.rows[k].meta.digest.value
  }

  predicate ExportAgrees(row: Meta, e: ExportRow) {
    !e.imported && e.digest == row.digest && e.revision == row.revision
  }

  function CanonicalExports(s: Snapshot): set<Key> {
    set k | k in s.exports && !s.exports[k].imported
  }

  predicate Conflicts(db: Db, t: PassTuple) {
    var current := TakeSnapshot(db, t.ref);
    || current != t.snapshot
    || (exists k | k in current.rows :: !(k in current.exports && ExportAgrees(current.rows[k].meta, current.exports[k])))
    || |current.rows| != |CanonicalExports(current)|
  }

  /** The tuple's version 1 rows become version 2 rows with the same metadata. */
  function Detach(db: Db, s: Snapshot): Db {
    var legacy := Legacy(s);
    db.(
    v2 := db.v2 + (map k | k in legacy :: s.rows[k].meta),
    v1 := db.v1 - legacy,
    chunks := db.chunks - legacy)
  }

  datatype Progress = Progress(db: Db, migrated: nat, conflicts: nat, moved: nat)

  function CommitTuple(p: Progress, t: PassTuple): Progress {
    if Conflicts(p.db, t) then p.(conflicts := p.conflicts + 1)
    else
      p.(db := Detach(Remember(p.db, t.ref), t.snapshot),
         migrated := p.migrated + |Legacy(t.snapshot)|,
         moved := p.moved + LegacyBytes(t.snapshot, t.ref))
  }

  function CommitTuples(p: Progress, ts: seq<PassTuple>): Progress
    decreases |ts|
  {
    if ts == [] then p else CommitTuples(CommitTuple(p, ts[0]), ts[1..])
  }

  predicate Drained(db: Db) { db.v1 == map[] && db.chunks == map[] }

  function NextCheckpoint(c: Checkpoint, pass: Pass, p: Progress, now: int): Checkpoint {
    var complete := Drained(p.db);
    var deferred := if p.conflicts > 0 then Some(if c.deferred.Some? then c.deferred.value else c.after) else c.deferred;
    c.(
    after := if pass.end && !complete then (if deferred.Some? then deferred.value else 0) else pass.after,
    deferred := if pass.end then None else deferred,
    scanned := c.scanned + pass.scanned,
    migrated := c.migrated + p.migrated,
    sourceBytes := c.sourceBytes + p.moved,
    conflicts := c.conflicts + p.conflicts,
    completedAt := if complete then Some(now) else None)
  }

  predicate PassIsCurrent(db: Db, pass: Pass) {
    db.format.V2? && db.tiering == Some(pass.checkpoint)
  }

  /** A completion time of zero reads as "not completed", as in the source. */
  predicate MarkedComplete(c: Checkpoint) { c.completedAt.Some? && c.completedAt.value != 0 }

  function CommitPass(db: Db, pass: Pass, now: int): Db {
    if !PassIsCurrent(db, pass) || MarkedComplete(pass.checkpoint) then db
    else
      var p := CommitTuples(Progress(db, 0, 0, 0), pass.tuples);
      p.db.(tiering := Some(NextCheckpoint(pass.checkpoint, pass, p, now)))
  }

  // ----- commits, hydration retirement, import shadows -----

  datatype CommitRecord = CommitRecord(id: int, body: Body)

  function MaxImportRowid(imports: map<Key, ImportRow>): (m: int)
    ensures forall k | k in imports :: imports[k].rowid <= m
  {
    var rowids := set k | k in imports :: imports[k].rowid;
    assert forall k | k in imports :: imports[k].rowid in rowids;
    if rowids == {} then 0 else GreatestOf(rowids)
  }

  /** Commit bodies live in the import table under a canonical pointer. None: another body is
      already published under the identifier. */
  function PublishCommit(db: Db, repo: string, r: CommitRecord, now: int): Option<Db> {
    var k := Key(repo, Commits, r.id);
    if k in db.exports then
      if db.exports[k].digest == Some(Sha256(r.body)) then Some(db) else None
    else
      Some(db.(
           imports := db.imports[k := ImportRow(MaxImportRowid(db.imports) + 1, r.body)],
           exportRevision := db.exportRevision + 1,
           exports := db.exports[k := ExportRow(Some(Sha256(r.body)), 1, db.exportRevision + 1, false, now)]))
  }

  function PublishCommits(db: Db, repo: string, rs: seq<CommitRecord>, now: int): Option<Db>
    decreases |rs|
  {
    if rs == [] then Some(db)
    else
      var first := PublishCommit(db, repo, rs[0], now);
      if first.None? then None else PublishCommits(first.value, repo, rs[1..], now)
  }

  datatype RetireRow = RetireRow(rowid: int, meta: Meta)

  datatype RetireTuple = RetireTuple(ref: ItemRef, rows: map<Key, RetireRow>, exports: map<Key, ExportRow>, ops: seq<Op>)

  function RetireRows(db: Db, ref: ItemRef): map<Key, RetireRow> {
    map k | k in TupleKeys(ref) && k in db.v1 :: RetireRow(db.v1[k].rowid, db.v1[k].meta)
  }

  function TupleExports(db: Db, ref: ItemRef): map<Key, ExportRow> {
    map k | k in TupleKeys(ref) && k in db.exports :: db.exports[k]
  }

  predicate RetireConflicts(db: Db, t: RetireTuple) {
    || RetireRows(db, t.ref) != t.rows
    || TupleExports(db, t.ref) != t.exports
    || (exists k | k in t.rows :: !(k in t.exports && ExportAgrees(t.rows[k].meta, t.exports[k])))
    || |t.exports| != |t.rows|
  }

  const SECTION_ORDER: seq<Section> := [Closed, Packets, Items, Plans]

  function OpFor(ops: seq<Op>, s: Section): Option<Op> {
    if ops == [] then None else if ops[0].section == s then Some(ops[0]) else OpFor(ops[1..], s)
  }

  /** A sibling of a rewritten file keeps its body but joins the tuple's new revision. */
  function Bump(db: Db, k: Key, revision: int, now: int): Db
    requires k in db.v1 && k in db.exports
  {
    db.(
    v1 := db.v1[k := db.v1[k].(meta := db.v1[k].meta.(revision := revision, updatedAt := now))],
    exportRevision := db.exportRevision + 1,
    exports := db.exports[k := db.exports[k].(revision := revision, storeRevision := db.exportRevision + 1, updatedAt := now)])
  }

  function RetireSection(db: Db, t: RetireTuple, s: Section, now: int, revision: int, prepared: set<Digest>): Option<Db> {
    var k := KeyOf(t.ref, s);
    var op := OpFor(t.ops, s);
    if k !in t.rows then Some(db)
    else if op.Some? then
      WriteOp(db, op.value, Writer(t.ref, t.rows[k].meta.owner, t.rows[k].meta.generation, now, revision, prepared, None))
    else if k in db.v1 && k in db.exports then Some(Bump(db, k, revision, now))
    else Some(db)
  }

  function RetireSections(db: Db, t: RetireTuple, sections: seq<Section>, now: int, revision: int, prepared: set<Digest>): Option<Db>
    decreases |sections|
  {
    if sections == [] then Some(db)
    else
      var first := RetireSection(db, t, sections[0], now, revision, prepared);
      if first.None? then None else RetireSections(first.value, t, sections[1..], now, revision, prepared)
  }

  function RetireTupleTx(db: Db, t: RetireTuple, now: int, prepared: set<Digest>): Option<Db> {
    if RetireConflicts(db, t) then Some(db)
    else
      var seeded := Remember(db, t.ref);
      RetireSections(seeded, t, SECTION_ORDER, now, TupleRevision(seeded, t.ref) + 1, prepared)
  }

  function RetireAll(db: Db, ts: seq<RetireTuple>, now: int, prepared: set<Digest>): Option<Db>
    decreases |ts|
  {
    if ts == [] then Some(db)
    else
      var first := RetireTupleTx(db, ts[0], now, prepared);
      if first.None? then None else RetireAll(first.value, ts[1..], now, prepared)
  }

  /** An import whose canonical owner agrees with its export pointer is unreachable. */
  predicate Shadowed(db: Db, k: Key) {
    && !k.section.Commits? && Stored(db, k) && k in db.exports && ExportAgrees(MetaOf(db, k), db.exports[k])
  }

  function DropShadows(db: Db, among: set<Key>): Db {
    db.(imports := db.imports - (set k | k in among && Shadowed(db, k)))
  }

  // ----- one step -----

  datatype Event =
    | Accept(plan: Plan, now: int, prepared: set<Digest>)
    | Move(mutation: Mutation, now: int, prepared: set<Digest>)
    | Start(approval: string, now: int)
    | Commit(pass: Pass, now: int)
    | Record(repo: string, commits: seq<CommitRecord>, now: int)
    | Retire(tuples: seq<RetireTuple>, now: int, prepared: set<Digest>)
    | Sweep(among: set<Key>)
    | PruneReceipts(now: int)
    | Ask(ref: ItemRef)
    | StoreBody(digest: Digest)

  function Step(db: Db, ev: Event): Db {
    match ev
    case Accept(plan, now, prepared) => AcceptPlan(db, plan, now, prepared).db
    case Move(m, now, prepared) => MoveTuple(db, m, now, prepared).db
    case Start(approval, now) => Activate(db, approval, now)
    case Commit(pass, now) => CommitPass(db, pass, now)
    case Record(repo, commits, now) => OrElse(PublishCommits(db, repo, commits, now), db)
    case Retire(tuples, now, prepared) => OrElse(RetireAll(db, tuples, now, prepared), db)
    case Sweep(among) => DropShadows(db, among)
    case PruneReceipts(now) => Prune(db, now)
    case Ask(ref) => Remember(db, ref)
    case StoreBody(digest) => db.(bucket := db.bucket + {digest})
  }
}

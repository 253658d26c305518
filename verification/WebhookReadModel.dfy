/** The webhook read model: items, comments and review activity under last-writer-wins with
    tombstones, row caps, repairs, and the bounded retirement of their payloads.
    The three payload tables are one map, keyed by table; rowids come from one counter. */
module WebhookReadModel {
  import opened Ordering

  datatype Ref = Ref(repo: string, number: int)

  datatype Slot = Item(ref: Ref) | Comment(ref: Ref, id: int) | Activity(ref: Ref, id: int, review: bool)

  datatype Table = Items | Comments | Activities

  /** One value of a snapshot; `marked` says that it contains the placeholder marker. */
  datatype Text = Text(content: string, marked: bool)

  type Snapshot = map<string, Text>

  datatype Row = Row(
    rowid: int,
    sourceAt: int,
    tombstone: bool,
    snapshot: Snapshot,
    receivedAt: int,
    pruned: bool,
    retireAt: int)

  /** What a complete comment census of an item left behind. */
  datatype Collection = Collection(repairedAt: int, complete: bool)

  datatype Model = Model(rows: map<Slot, Row>, collections: map<Ref, Collection>, next: int)

  datatype Object = Object(slot: Slot, sourceAt: int, tombstone: bool, snapshot: Snapshot, pull: bool)

  const RETENTION_MS := 1800000
  const PASS_LIMIT := 64
  const MAX_PER_ITEM := 500
  const PARKED := -1
  const EMPTY := Model(map[], map[], 0)

  function TableOf(s: Slot): Table {
    match s
    case Item(_) => Items
    case Comment(_, _) => Comments
    case Activity(_, _, _) => Activities
  }

  predicate Marked(s: Snapshot) { exists f | f in s :: s[f].marked }

  // ----- last writer wins -----

  /** An equal source time is taken only from a repair or a deletion, and never over a tombstone. */
  predicate Supersedes(o: Object, confirmed: bool, previous: Row) {
    || o.sourceAt > previous.sourceAt
    || (o.sourceAt == previous.sourceAt && (confirmed || o.tombstone) && !previous.tombstone)
  }

  function WithKind(s: Snapshot, pull: bool): Snapshot {
    if pull && "pull_request" !in s then s["pull_request" := Text("{}", false)] else s
  }

  function Insert(m: Model, s: Slot, r: Row): Model {
    Model(m.rows[s := r], m.collections, if s in m.rows then m.next else m.next + 1)
  }

  function RowidOf(m: Model, s: Slot): int { if s in m.rows then m.rows[s].rowid else m.next }

  /** An item's snapshot is merged; once retired, only a repair restores it. */
  function UpsertItem(m: Model, o: Object, receivedAt: int, confirmed: bool): Model {
    var s := o.slot;
    if s in m.rows && (m.rows[s].sourceAt > o.sourceAt || (m.rows[s].sourceAt == o.sourceAt && !confirmed)) then m
    else
      var merged := if s in m.rows then m.rows[s].snapshot + o.snapshot else o.snapshot;
      var staysPruned := s in m.rows && m.rows[s].pruned && !confirmed;
      Insert(m, s, Row(RowidOf(m, s), o.sourceAt, false, if staysPruned then map[] else WithKind(merged, o.pull),
                       receivedAt, staysPruned, receivedAt + RETENTION_MS))
  }

  function Recheck(m: Model, ref: Ref): Model {
    var s := Item(ref);
    if s in m.rows && m.rows[s].retireAt == PARKED then m.(rows := m.rows[s := m.rows[s].(retireAt := 0)]) else m
  }

  function Incomplete(m: Model, ref: Ref): Model {
    if ref in m.collections then m.(collections := m.collections[ref := m.collections[ref].(complete := false)]) else m
  }

  function NewRow(m: Model, o: Object, receivedAt: int, retire: bool): Row {
    Row(RowidOf(m, o.slot), o.sourceAt, o.tombstone, if retire then map[] else o.snapshot, receivedAt, retire,
        receivedAt + RETENTION_MS)
  }

  predicate Taken(m: Model, o: Object, confirmed: bool) {
    o.slot in m.rows ==> Supersedes(o, confirmed, m.rows[o.slot])
  }

  function UpsertComment(m: Model, o: Object, receivedAt: int, confirmed: bool, retire: bool): Model {
    var ref := o.slot.ref;
    var u :=
      if !Taken(m, o, confirmed) then m
      else
        var written := Insert(m, o.slot, NewRow(m, o, receivedAt, retire));
        Recheck(if retire then Incomplete(written, ref) else written, ref);
    Cap(u, ref, Comments)
  }

  function UpsertActivity(m: Model, o: Object, receivedAt: int, confirmed: bool): Model {
    Cap(if Taken(m, o, confirmed) then Insert(m, o.slot, NewRow(m, o, receivedAt, false)) else m, o.slot.ref, Activities)
  }

  function Upsert(m: Model, o: Object, receivedAt: int, confirmed: bool, retire: bool): Model {
    match o.slot
    case Item(_) => UpsertItem(m, o, receivedAt, confirmed)
    case Comment(_, _) => UpsertComment(m, o, receivedAt, confirmed, retire)
    case Activity(_, _, _) => UpsertActivity(m, o, receivedAt, confirmed)
  }

  // ----- row caps -----

  function IdOf(s: Slot): int {
    match s
    case Item(_) => 0
    case Comment(_, id) => id
    case Activity(_, id, _) => id
  }

  /** The rows of one item in one table, newest first. */
  function Newest(m: Model, ref: Ref, table: Table): (ranks: map<Slot, Rank>)
    ensures Distinct(ranks)
  {
    map s | s in m.rows && s.ref == ref && TableOf(s) == table ::
      Rank(-m.rows[s].sourceAt, -IdOf(s), if s.Activity? && s.review then 0 else 1)
  }

  function Ranked(m: Model, ref: Ref, table: Table): seq<Slot> { Sorted(Newest(m, ref, table)) }

  predicate NotNewer(r: Row, id: int, boundary: Row, boundaryId: int) {
    r.sourceAt < boundary.sourceAt || (r.sourceAt == boundary.sourceAt && id <= boundaryId)
  }

  function Ids(q: seq<Slot>): set<int> { set s | s in q :: IdOf(s) }

  /** The rows beyond the cap whose identifier no row inside it shares. */
  function Overflow(m: Model, ref: Ref, table: Table): set<Slot> {
    var q := Ranked(m, ref, table);
    if |q| <= MAX_PER_ITEM then {}
    else
      var boundary := q[MAX_PER_ITEM];
      assert boundary in q;
      set s | s in m.rows && s.ref == ref && TableOf(s) == table
              && NotNewer(m.rows[s], IdOf(s), m.rows[boundary], IdOf(boundary))
              && IdOf(s) !in Ids(q[..MAX_PER_ITEM])
  }

  function Cap(m: Model, ref: Ref, table: Table): Model {
    if |Ranked(m, ref, table)| <= MAX_PER_ITEM then m
    else
      var collections :=
        if table.Comments? then
          m.collections[ref := if ref in m.collections then m.collections[ref].(complete := false) else Collection(0, false)]
        else m.collections;
      Model(m.rows - Overflow(m, ref, table), collections, m.next)
  }

  // ----- deliveries and repairs -----

  function Deliver(m: Model, objects: seq<Object>, receivedAt: int): Model
    decreases |objects|
  {
    if objects == [] then m
    else Deliver(Upsert(m, objects[0], receivedAt, false, false), objects[1..], receivedAt)
  }

  datatype RepairKind = ItemRepair | CommentRepair | PlaceholderRepair

  const TOMBSTONE: Snapshot := map["tombstone" := Text("true", false)]

  /** Live comments a complete census did not list. */
  function Unlisted(m: Model, ref: Ref, live: set<int>): set<Slot> {
    set s | s in m.rows && s.Comment? && s.ref == ref && !m.rows[s].tombstone && s.id !in live
  }

  function Bury(m: Model, slots: set<Slot>, now: int): Model {
    m.(rows := map s | s in m.rows ::
      if s in slots then Row(m.rows[s].rowid, now, true, TOMBSTONE, now, false, 0) else m.rows[s])
  }

  function LiveIds(objects: seq<Object>, ref: Ref): set<int> {
    set o | o in objects && o.slot.Comment? && o.slot.ref == ref :: o.slot.id
  }

  function Census(m: Model, ref: Ref, live: set<int>, now: int): Model {
    var r := Recheck(m, ref);
    var b := Bury(r, Unlisted(r, ref, live), now);
    b.(collections := b.collections[ref := Collection(now, true)])
  }

  function Censuses(m: Model, refs: seq<Ref>, objects: seq<Object>, now: int): Model
    decreases |refs|
  {
    if refs == [] then m else Censuses(Census(m, refs[0], LiveIds(objects, refs[0]), now), refs[1..], objects, now)
  }

  /** Placeholder polls own pending bodies only. */
  predicate Retires(kind: RepairKind, o: Object) {
    kind.PlaceholderRepair? && o.slot.Comment? && !o.tombstone && !("body" in o.snapshot && o.snapshot["body"].marked)
  }

  function Confirm(m: Model, kind: RepairKind, objects: seq<Object>, now: int): Model
    decreases |objects|
  {
    if objects == [] then m
    else Confirm(Upsert(m, objects[0], now, true, Retires(kind, objects[0])), kind, objects[1..], now)
  }

  function Repair(m: Model, kind: RepairKind, objects: seq<Object>, refs: seq<Ref>, now: int): Model {
    Confirm(Censuses(m, refs, objects, now), kind, objects, now)
  }

  // ----- payload retirement -----

  predicate IsDue(s: Slot, r: Row, now: int) {
    !r.pruned && 0 <= r.retireAt < now && (s.Item? || !r.tombstone)
  }

  ghost predicate RowidsDistinct(m: Model) {
    && (forall s | s in m.rows :: m.rows[s].rowid < m.next)
    && (forall s, t | s in m.rows && t in m.rows && m.rows[s].rowid == m.rows[t].rowid :: s == t)
  }

  function DueIn(m: Model, table: Table, now: int): (ranks: map<Slot, Rank>)
    requires RowidsDistinct(m)
    ensures Distinct(ranks)
  {
    map s | s in m.rows && TableOf(s) == table && IsDue(s, m.rows[s], now) :: Rank(m.rows[s].retireAt, m.rows[s].rowid, 0)
  }

  /** An unresolved placeholder, or the item above one. */
  predicate Protected(m: Model, s: Slot)
    requires s in m.rows
  {
    match s
    case Item(ref) => HasPlaceholder(m, ref)
    case Comment(_, _) => Marked(m.rows[s].snapshot)
    case Activity(_, _, _) => false
  }

  predicate HasPlaceholder(m: Model, ref: Ref) {
    exists s | s in m.rows :: s.Comment? && s.ref == ref && !m.rows[s].tombstone && Marked(m.rows[s].snapshot)
  }

  /** When any member of the item's family was last received or repaired. */
  function FamilyTimes(m: Model, ref: Ref): set<int> {
    (set s | s in m.rows && s.ref == ref :: m.rows[s].receivedAt)
    + (if ref in m.collections then {m.collections[ref].repairedAt} else {})
  }

  function FamilyDeadline(m: Model, ref: Ref): int
    requires FamilyTimes(m, ref) != {}
  {
    GreatestOf(FamilyTimes(m, ref)) + RETENTION_MS
  }

  datatype Tally = Tally(scanned: nat, retired: nat, deferred: nat, parked: nat)

  datatype Passed = Passed(model: Model, tally: Tally)

  function RetireAtTo(m: Model, s: Slot, at: int): Model
    requires s in m.rows
  {
    m.(rows := m.rows[s := m.rows[s].(retireAt := at)])
  }

  function Process(p: Passed, s: Slot, now: int): Passed
    requires s in p.model.rows
  {
    var m := p.model;
    var t := p.tally.(scanned := p.tally.scanned + 1);
    if Protected(m, s) then Passed(RetireAtTo(m, s, PARKED), t.(parked := t.parked + 1))
    else
      assert m.rows[s].receivedAt in FamilyTimes(m, s.ref);
      var deadline := FamilyDeadline(m, s.ref);
      if deadline >= now then Passed(RetireAtTo(m, s, deadline), t.(deferred := t.deferred + 1))
      else
        Passed(Incomplete(m.(rows := m.rows[s := m.rows[s].(snapshot := map[], pruned := true)]), s.ref),
               t.(retired := t.retired + 1))
  }

  lemma ProcessKeepsSlots(p: Passed, s: Slot, now: int)
    requires s in p.model.rows
    ensures Process(p, s, now).model.rows.Keys == p.model.rows.Keys
    ensures Process(p, s, now).tally.scanned == p.tally.scanned + 1
  {
    hide Protected, FamilyDeadline, FamilyTimes;
  }

  function ProcessAll(p: Passed, batch: seq<Slot>, now: int): (q: Passed)
    requires forall s | s in batch :: s in p.model.rows
    decreases |batch|
  {
    if batch == [] then p
    else
      ProcessKeepsSlots(p, batch[0], now);
      ProcessAll(Process(p, batch[0], now), batch[1..], now)
  }

  function Batch(m: Model, table: Table, now: int, n: int): (batch: seq<Slot>)
    requires RowidsDistinct(m)
    ensures forall s | s in batch :: s in m.rows
  {
    hide Sorted, IsDue, RowidsDistinct;
    assert forall s | s in Limit(Sorted(DueIn(m, table, now)), n) :: s in Sorted(DueIn(m, table, now));
    Limit(Sorted(DueIn(m, table, now)), n)
  }

  lemma ProcessKeepsRowids(p: Passed, s: Slot, now: int)
    requires s in p.model.rows && RowidsDistinct(p.model)
    ensures RowidsDistinct(Process(p, s, now).model)
  {
    ProcessKeepsEachRowid(p, s, now);
    hide Process;
  }

  lemma ProcessKeepsEachRowid(p: Passed, s: Slot, now: int)
    requires s in p.model.rows
    ensures var u := Process(p, s, now).model;
            u.next == p.model.next && u.rows.Keys == p.model.rows.Keys && forall t | t in p.model.rows :: u.rows[t].rowid == p.model.rows[t].rowid
  {
    hide Protected, FamilyDeadline, FamilyTimes;
  }

  lemma {:induction false} ProcessAllKeepsRowids(p: Passed, batch: seq<Slot>, now: int)
    requires (forall s | s in batch :: s in p.model.rows) && RowidsDistinct(p.model)
    ensures RowidsDistinct(ProcessAll(p, batch, now).model)
    ensures ProcessAll(p, batch, now).tally.scanned == p.tally.scanned + |batch|
    decreases |batch|
  {
    hide Process, RowidsDistinct;
    if batch != [] {
      ProcessKeepsSlots(p, batch[0], now);
      ProcessKeepsRowids(p, batch[0], now);
      ProcessAllKeepsRowids(Process(p, batch[0], now), batch[1..], now);
    }
  }

  function ProcessTable(p: Passed, table: Table, now: int): Passed
    requires RowidsDistinct(p.model)
  {
    ProcessAll(p, Batch(p.model, table, now, PASS_LIMIT - p.tally.scanned), now)
  }

  /** One bounded pass: items, then comments, then activity, until the limit is met. */
  function PrunePayloads(m: Model, now: int): Passed
    requires RowidsDistinct(m)
  {
    hide Batch, RowidsDistinct, ProcessAll;
    var p := Passed(m, Tally(0, 0, 0, 0));
    ProcessAllKeepsRowids(p, Batch(p.model, Items, now, PASS_LIMIT - p.tally.scanned), now);
    var items := ProcessTable(p, Items, now);
    ProcessAllKeepsRowids(items, Batch(items.model, Comments, now, PASS_LIMIT - items.tally.scanned), now);
    var comments := ProcessTable(items, Comments, now);
    ProcessTable(comments, Activities, now)
  }

  // ----- one step -----

  datatype Event =
    | Delivered(objects: seq<Object>, receivedAt: int)
    | Repaired(kind: RepairKind, objects: seq<Object>, refs: seq<Ref>, now: int)
    | Pruned(now: int)
}

/** What every delivery, repair and pass keeps: capped comments, and parked rows that are still
    protected. */
module WebhookSafety {
  import opened Ordering
  import opened WebhookReadModel
  import opened WebhookRetirement

  /** A parked row is an unresolved placeholder, or an item with a live placeholder comment. */
  ghost predicate ParkedSound(m: Model) {
    forall s | s in m.rows && m.rows[s].retireAt == PARKED :: Protected(m, s)
  }

  ghost predicate CommentsCapped(m: Model) {
    forall ref :: |Newest(m, ref, Comments)| <= MAX_PER_ITEM
  }

  ghost predicate Inv(m: Model) { RowidsDistinct(m) && ParkedSound(m) && CommentsCapped(m) }

  lemma EmptyIsSafe()
    ensures Inv(EMPTY)
  {
    assert forall ref :: Newest(EMPTY, ref, Comments) == map[];
  }

  // ----- the row cap -----

  lemma RankedFacts(m: Model, ref: Ref, table: Table)
    ensures var q := Ranked(m, ref, table);
            && (forall s :: s in q <==> s in m.rows && s.ref == ref && TableOf(s) == table)
            && |q| == |Newest(m, ref, table)|
            && (forall i, j | 0 <= i < j < |q| ::
                  q[i] in m.rows && q[j] in m.rows && Newest(m, ref, table)[q[i]].Before(Newest(m, ref, table)[q[j]]))
  {
    hide Sorted;
    var newest := Newest(m, ref, table);
    var q := Ranked(m, ref, table);
    forall i, j | 0 <= i < j < |q|
      ensures q[i] in m.rows && q[j] in m.rows && newest[q[i]].Before(newest[q[j]])
    {
      SortedAscends(newest, i, j);
    }
  }

  /** Over the cap, exactly the newest rows of the item stay, by source time and then identifier. */
  lemma CapKeepsTheNewest(m: Model, ref: Ref, kept: Slot, s: Slot)
    requires |Ranked(m, ref, Comments)| > MAX_PER_ITEM
    requires s in m.rows && s.Comment? && s.ref == ref
    requires kept in Ranked(m, ref, Comments)[..MAX_PER_ITEM]
    ensures s in Cap(m, ref, Comments).rows <==> s in Ranked(m, ref, Comments)[..MAX_PER_ITEM]
    ensures s !in Cap(m, ref, Comments).rows ==>
              kept in m.rows && !NotNewer(m.rows[kept], IdOf(kept), m.rows[s], IdOf(s))
  {
    hide Ranked, Newest;
    var q := Ranked(m, ref, Comments);
    RankedFacts(m, ref, Comments);
    var i :| 0 <= i < |q| && q[i] == s;
    var j :| 0 <= j < MAX_PER_ITEM && q[j] == kept;
    if i < MAX_PER_ITEM {
      assert q[..MAX_PER_ITEM][i] == s;
    } else {
      NewerFirst(m, ref, kept, s, j, i);
      if i > MAX_PER_ITEM { NewerFirst(m, ref, q[MAX_PER_ITEM], s, MAX_PER_ITEM, i); }
      forall t | t in q[..MAX_PER_ITEM] ensures IdOf(t) != IdOf(s) {
        var k :| 0 <= k < MAX_PER_ITEM && q[..MAX_PER_ITEM][k] == t;
        NewerFirst(m, ref, t, s, k, i);
        assert t in q;
      }
    }
  }

  lemma NewerFirst(m: Model, ref: Ref, a: Slot, b: Slot, i: nat, j: nat)
    requires var q := Ranked(m, ref, Comments); i < j < |q| && q[i] == a && q[j] == b
    ensures a in m.rows && b in m.rows && a != b
    ensures !NotNewer(m.rows[a], IdOf(a), m.rows[b], IdOf(b)) && NotNewer(m.rows[b], IdOf(b), m.rows[a], IdOf(a))
  {
    hide Ranked;
    RankedFacts(m, ref, Comments);
    assert a in Ranked(m, ref, Comments) && b in Ranked(m, ref, Comments);
  }

  lemma CapElsewhere(m: Model, ref: Ref, table: Table)
    ensures var u := Cap(m, ref, table);
            && (forall s | s in u.rows :: s in m.rows && u.rows[s] == m.rows[s])
            && (forall s | s in m.rows && (s.ref != ref || TableOf(s) != table) :: s in u.rows)
            && u.next == m.next
  {
    hide Ranked, NotNewer;
  }

  lemma CapBounds(m: Model, ref: Ref)
    ensures |Newest(Cap(m, ref, Comments), ref, Comments)| <= MAX_PER_ITEM
  {
    var u := Cap(m, ref, Comments);
    var q := Ranked(m, ref, Comments);
    RankedFacts(m, ref, Comments);
    if |q| > MAX_PER_ITEM {
      var top := q[..MAX_PER_ITEM];
      forall s | s in Newest(u, ref, Comments) ensures s in Members(top) {
        CapKeepsTheNewest(m, ref, top[0], s);
      }
      assert Newest(u, ref, Comments).Keys <= Members(top);
      SubsetSize(Newest(u, ref, Comments).Keys, Members(top));
      FewMembers(top);
      assert |Newest(u, ref, Comments)| == |Newest(u, ref, Comments).Keys|;
    }
  }

  lemma CappedElsewhere(m: Model, u: Model, ref: Ref)
    requires forall s: Slot | s.Comment? && s.ref == ref :: s in u.rows ==> s in m.rows
    requires |Newest(m, ref, Comments)| <= MAX_PER_ITEM
    ensures |Newest(u, ref, Comments)| <= MAX_PER_ITEM
  {
    assert Newest(u, ref, Comments).Keys <= Newest(m, ref, Comments).Keys;
    SubsetSize(Newest(u, ref, Comments).Keys, Newest(m, ref, Comments).Keys);
    assert |Newest(u, ref, Comments)| == |Newest(u, ref, Comments).Keys|;
    assert |Newest(m, ref, Comments)| == |Newest(m, ref, Comments).Keys|;
  }

  lemma CappedIsUntouched(m: Model, ref: Ref)
    requires CommentsCapped(m)
    ensures Cap(m, ref, Comments) == m
  {
    RankedFacts(m, ref, Comments);
    hide Ranked, Newest;
  }

  // ----- rowids -----

  lemma InsertKeepsRowids(m: Model, s: Slot, r: Row)
    requires RowidsDistinct(m) && r.rowid == RowidOf(m, s)
    ensures RowidsDistinct(Insert(m, s, r))
  {
  }

  /** Every row of `u` is a row of `m`, with its rowid. */
  lemma FewerKeepRowids(m: Model, u: Model)
    requires RowidsDistinct(m) && u.next == m.next
    requires forall s | s in u.rows :: s in m.rows && u.rows[s].rowid == m.rows[s].rowid
    ensures RowidsDistinct(u)
  {
  }

  // ----- parked rows -----

  /** Comments keep their text and stay live; nothing newly parks. */
  ghost predicate KeepsPlaceholders(m: Model, u: Model, ref: Ref) {
    HasPlaceholder(m, ref) ==> HasPlaceholder(u, ref)
  }

  lemma SameCommentsKeepPlaceholders(m: Model, u: Model, ref: Ref)
    requires forall s | s in m.rows && s.Comment? && s.ref == ref ::
               s in u.rows && u.rows[s].snapshot == m.rows[s].snapshot && u.rows[s].tombstone == m.rows[s].tombstone
    ensures KeepsPlaceholders(m, u, ref)
  {
    hide Marked;
    if HasPlaceholder(m, ref) {
      var s :| s in m.rows && s.Comment? && s.ref == ref && !m.rows[s].tombstone && Marked(m.rows[s].snapshot);
      assert s in u.rows;
    }
  }

  /** A row stays protected while it, and the placeholders of its item, stay. */
  lemma StaysProtected(m: Model, u: Model, s: Slot)
    requires s in m.rows && s in u.rows && Protected(m, s)
    requires s.Comment? ==> u.rows[s].snapshot == m.rows[s].snapshot
    requires s.Item? ==> KeepsPlaceholders(m, u, s.ref)
    ensures Protected(u, s)
  {
  }

  lemma UpsertItemKeeps(m: Model, o: Object, receivedAt: int, confirmed: bool)
    requires Inv(m) && o.slot.Item? && receivedAt >= 0
    ensures Inv(UpsertItem(m, o, receivedAt, confirmed))
  {
    hide Protected, HasPlaceholder, Newest, RowidsDistinct, WithKind;
    var u := UpsertItem(m, o, receivedAt, confirmed);
    if u != m {
      InsertKeepsRowids(m, o.slot, u.rows[o.slot]);
      forall ref ensures |Newest(u, ref, Comments)| <= MAX_PER_ITEM { CappedElsewhere(m, u, ref); }
      forall s | s in u.rows && u.rows[s].retireAt == PARKED ensures Protected(u, s) {
        SameCommentsKeepPlaceholders(m, u, s.ref);
        StaysProtected(m, u, s);
      }
    }
  }

  lemma UpsertActivityKeeps(m: Model, o: Object, receivedAt: int, confirmed: bool)
    requires Inv(m) && o.slot.Activity? && receivedAt >= 0
    ensures Inv(UpsertActivity(m, o, receivedAt, confirmed))
  {
    hide Protected, HasPlaceholder, Newest, RowidsDistinct, Cap;
    var v := if Taken(m, o, confirmed) then Insert(m, o.slot, NewRow(m, o, receivedAt, false)) else m;
    var u := UpsertActivity(m, o, receivedAt, confirmed);
    if Taken(m, o, confirmed) { InsertKeepsRowids(m, o.slot, NewRow(m, o, receivedAt, false)); }
    CapElsewhere(v, o.slot.ref, Activities);
    FewerKeepRowids(v, u);
    forall ref ensures |Newest(u, ref, Comments)| <= MAX_PER_ITEM { CappedElsewhere(m, u, ref); }
    forall s | s in u.rows && u.rows[s].retireAt == PARKED ensures Protected(u, s) {
      SameCommentsKeepPlaceholders(m, u, s.ref);
      StaysProtected(m, u, s);
    }
  }

  /** The state of an accepted comment before the cap: the item above it is not parked. */
  ghost function Written(m: Model, o: Object, receivedAt: int, retire: bool): Model {
    var written := Insert(m, o.slot, NewRow(m, o, receivedAt, retire));
    Recheck(if retire then Incomplete(written, o.slot.ref) else written, o.slot.ref)
  }

  lemma WrittenRows(m: Model, o: Object, receivedAt: int, retire: bool)
    requires o.slot.Comment? && receivedAt >= 0
    ensures var v := Written(m, o, receivedAt, retire);
            && v.rows.Keys == m.rows.Keys + {o.slot}
            && (forall s | s in m.rows && s != o.slot && s != Item(o.slot.ref) :: v.rows[s] == m.rows[s])
            && v.rows[o.slot].retireAt != PARKED
            && (Item(o.slot.ref) in v.rows ==> v.rows[Item(o.slot.ref)].retireAt != PARKED)
            && (RowidsDistinct(m) ==> RowidsDistinct(v))
  {
    hide Marked, RowidsDistinct;
    var w := Insert(m, o.slot, NewRow(m, o, receivedAt, retire));
    if RowidsDistinct(m) {
      InsertKeepsRowids(m, o.slot, NewRow(m, o, receivedAt, retire));
      FewerKeepRowids(w, Written(m, o, receivedAt, retire));
    }
  }

  lemma UpsertCommentKeeps(m: Model, o: Object, receivedAt: int, confirmed: bool, retire: bool)
    requires Inv(m) && o.slot.Comment? && receivedAt >= 0
    ensures Inv(UpsertComment(m, o, receivedAt, confirmed, retire))
  {
    hide Protected, HasPlaceholder, Newest, RowidsDistinct, Cap, Written, Supersedes;
    if !Taken(m, o, confirmed) {
      CappedIsUntouched(m, o.slot.ref);
    } else {
      var v := Written(m, o, receivedAt, retire);
      var u := UpsertComment(m, o, receivedAt, confirmed, retire);
      assert u == Cap(v, o.slot.ref, Comments) by { UpsertIsWritten(m, o, receivedAt, confirmed, retire); }
      WrittenRows(m, o, receivedAt, retire);
      CapElsewhere(v, o.slot.ref, Comments);
      FewerKeepRowids(v, u);
      CapBounds(v, o.slot.ref);
      forall ref ensures |Newest(u, ref, Comments)| <= MAX_PER_ITEM {
        if ref != o.slot.ref { CappedElsewhere(m, u, ref); }
      }
      forall s | s in u.rows && u.rows[s].retireAt == PARKED ensures Protected(u, s) {
        assert s in m.rows && u.rows[s] == m.rows[s];
        if s.ref != o.slot.ref {
          SameCommentsKeepPlaceholders(m, u, s.ref);
        }
        StaysProtected(m, u, s);
      }
    }
  }

  lemma UpsertIsWritten(m: Model, o: Object, receivedAt: int, confirmed: bool, retire: bool)
    requires Taken(m, o, confirmed) && o.slot.Comment?
    ensures UpsertComment(m, o, receivedAt, confirmed, retire) == Cap(Written(m, o, receivedAt, retire), o.slot.ref, Comments)
  {
    hide Cap;
  }

  lemma UpsertKeeps(m: Model, o: Object, receivedAt: int, confirmed: bool, retire: bool)
    requires Inv(m) && receivedAt >= 0
    ensures Inv(Upsert(m, o, receivedAt, confirmed, retire))
  {
    hide Inv, UpsertItem, UpsertComment, UpsertActivity;
    match o.slot
    case Item(_) => UpsertItemKeeps(m, o, receivedAt, confirmed);
    case Comment(_, _) => UpsertCommentKeeps(m, o, receivedAt, confirmed, retire);
    case Activity(_, _, _) => UpsertActivityKeeps(m, o, receivedAt, confirmed);
  }

  lemma {:induction false} DeliverKeeps(m: Model, objects: seq<Object>, receivedAt: int)
    requires Inv(m) && receivedAt >= 0
    ensures Inv(Deliver(m, objects, receivedAt))
    decreases |objects|
  {
    hide Inv, Upsert;
    if objects != [] {
      UpsertKeeps(m, objects[0], receivedAt, false, false);
      DeliverKeeps(Upsert(m, objects[0], receivedAt, false, false), objects[1..], receivedAt);
    }
  }

  lemma {:induction false} ConfirmKeeps(m: Model, kind: RepairKind, objects: seq<Object>, now: int)
    requires Inv(m) && now >= 0
    ensures Inv(Confirm(m, kind, objects, now))
    decreases |objects|
  {
    hide Inv, Upsert, Retires;
    if objects != [] {
      UpsertKeeps(m, objects[0], now, true, Retires(kind, objects[0]));
      ConfirmKeeps(Upsert(m, objects[0], now, true, Retires(kind, objects[0])), kind, objects[1..], now);
    }
  }

  /** What a census leaves of each row: itself, not parked any more, or a tombstone. */
  lemma CensusRows(m: Model, ref: Ref, live: set<int>, now: int)
    ensures var u := Census(m, ref, live, now);
            && u.rows.Keys == m.rows.Keys && u.next == m.next
            && (forall s | s in m.rows :: u.rows[s].rowid == m.rows[s].rowid)
            && (forall s | s in m.rows && u.rows[s].retireAt == PARKED :: u.rows[s] == m.rows[s] && s != Item(ref))
            && (forall s | s in m.rows && s.ref != ref :: u.rows[s] == m.rows[s])
  {
    hide Marked;
  }

  lemma CensusKeeps(m: Model, ref: Ref, live: set<int>, now: int)
    requires Inv(m)
    ensures Inv(Census(m, ref, live, now))
  {
    hide Protected, HasPlaceholder, Newest, RowidsDistinct, Census;
    var u := Census(m, ref, live, now);
    CensusRows(m, ref, live, now);
    FewerKeepRowids(m, u);
    forall q ensures |Newest(u, q, Comments)| <= MAX_PER_ITEM { CappedElsewhere(m, u, q); }
    forall s | s in u.rows && u.rows[s].retireAt == PARKED ensures Protected(u, s) {
      if s.Item? {
        SameCommentsKeepPlaceholders(m, u, s.ref);
      }
      StaysProtected(m, u, s);
    }
  }

  lemma {:induction false} CensusesKeep(m: Model, refs: seq<Ref>, objects: seq<Object>, now: int)
    requires Inv(m)
    ensures Inv(Censuses(m, refs, objects, now))
    decreases |refs|
  {
    hide Inv, Census;
    if refs != [] {
      CensusKeeps(m, refs[0], LiveIds(objects, refs[0]), now);
      CensusesKeep(Census(m, refs[0], LiveIds(objects, refs[0]), now), refs[1..], objects, now);
    }
  }

  // ----- a pass -----

  lemma ProcessKeepsParked(p: Passed, s: Slot, now: int)
    requires s in p.model.rows && ParkedSound(p.model) && now >= 0
    ensures ParkedSound(Process(p, s, now).model)
  {
    hide Protected, HasPlaceholder, Process, Retired;
    var m, u := p.model, Process(p, s, now).model;
    ProcessRetires(p, s, now);
    RetiredKeys(m, u, now);
    forall t | t in u.rows && u.rows[t].retireAt == PARKED ensures Protected(u, t) {
      assert Protected(m, t);
      RetiredKeepsProtection(m, u, now, t);
    }
  }

  /** No earlier row of a pass changes whether a later one is protected. */
  lemma RetiredKeepsProtection(m: Model, u: Model, now: int, s: Slot)
    requires Retired(m, u, now) && s in m.rows && s in u.rows && Protected(m, s)
    ensures Protected(u, s)
  {
    assert RowRetires(m, u, s, now);
    RetiredKeepsPlaceholders(m, u, now, s.ref);
    hide HasPlaceholder, Idle, Retired;
  }

  lemma {:induction false} ProcessAllKeepsParked(p: Passed, batch: seq<Slot>, now: int)
    requires (forall s | s in batch :: s in p.model.rows) && ParkedSound(p.model) && now >= 0
    ensures ParkedSound(ProcessAll(p, batch, now).model)
    decreases |batch|
  {
    hide ParkedSound, Process;
    if batch != [] {
      ProcessKeepsParked(p, batch[0], now);
      ProcessKeepsSlots(p, batch[0], now);
      ProcessAllKeepsParked(Process(p, batch[0], now), batch[1..], now);
    }
  }

  lemma ProcessTableKeepsParked(p: Passed, table: Table, now: int)
    requires RowidsDistinct(p.model) && ParkedSound(p.model) && now >= 0
    ensures ParkedSound(ProcessTable(p, table, now).model) && RowidsDistinct(ProcessTable(p, table, now).model)
  {
    hide ParkedSound, ProcessAll, Batch, RowidsDistinct;
    var batch := Batch(p.model, table, now, PASS_LIMIT - p.tally.scanned);
    ProcessAllKeepsParked(p, batch, now);
    ProcessAllKeepsRowids(p, batch, now);
  }

  lemma PassKeeps(m: Model, now: int)
    requires Inv(m) && now >= 0
    ensures Inv(PrunePayloads(m, now).model)
  {
    hide ParkedSound, ProcessTable, RowidsDistinct, Newest, Retired, AllDue;
    var start := Passed(m, Tally(0, 0, 0, 0));
    ProcessTableKeepsParked(start, Items, now);
    var items := ProcessTable(start, Items, now);
    ProcessTableKeepsParked(items, Comments, now);
    var comments := ProcessTable(items, Comments, now);
    ProcessTableKeepsParked(comments, Activities, now);
    PassScansTheDue(m, now);
    var u := PrunePayloads(m, now).model;
    assert u == ProcessTable(comments, Activities, now).model;
    RetiredKeys(m, u, now);
    forall ref ensures |Newest(u, ref, Comments)| <= MAX_PER_ITEM { CappedElsewhere(m, u, ref); }
  }

  // ----- runs -----

  ghost predicate Enabled(ev: Event) {
    match ev
    case Delivered(_, receivedAt) => receivedAt >= 0
    case Repaired(_, _, _, now) => now >= 0
    case Pruned(now) => now >= 0
  }

  function Step(m: Model, ev: Event): Model
    requires RowidsDistinct(m)
  {
    match ev
    case Delivered(objects, receivedAt) => Deliver(m, objects, receivedAt)
    case Repaired(kind, objects, refs, now) => Repair(m, kind, objects, refs, now)
    case Pruned(now) => PrunePayloads(m, now).model
  }

  lemma StepKeeps(m: Model, ev: Event)
    requires Inv(m) && Enabled(ev)
    ensures Inv(Step(m, ev))
  {
    hide Inv, Deliver, Repair, PrunePayloads, RowidsDistinct;
    assert RowidsDistinct(m) by { InvIsRowids(m); }
    match ev
    case Delivered(objects, receivedAt) => DeliverKeeps(m, objects, receivedAt);
    case Repaired(kind, objects, refs, now) => RepairKeeps(m, kind, objects, refs, now);
    case Pruned(now) => PassKeeps(m, now);
  }

  lemma RepairKeeps(m: Model, kind: RepairKind, objects: seq<Object>, refs: seq<Ref>, now: int)
    requires Inv(m) && now >= 0
    ensures Inv(Repair(m, kind, objects, refs, now))
  {
    hide Inv, Censuses, Confirm;
    CensusesKeep(m, refs, objects, now);
    ConfirmKeeps(Censuses(m, refs, objects, now), kind, objects, now);
  }

  lemma InvIsRowids(m: Model)
    requires Inv(m)
    ensures RowidsDistinct(m)
  {
  }

  ghost predicate Run(h: seq<Model>, evs: seq<Event>) {
    && |h| == |evs| + 1
    && (forall i | 0 <= i < |evs| :: Enabled(evs[i]) && (RowidsDistinct(h[i]) ==> h[i + 1] == Step(h[i], evs[i])))
  }

  /** In every state of a run an item parked for good has a live placeholder comment, a parked
      comment is one, and no item holds more comments than the cap. */
  lemma {:induction false} RunKeeps(h: seq<Model>, evs: seq<Event>, n: nat)
    requires Run(h, evs) && Inv(h[0]) && n <= |evs|
    ensures Inv(h[n])
    decreases n
  {
    hide Inv, Step, Enabled, RowidsDistinct;
    if n > 0 {
      RunKeeps(h, evs, n - 1);
      InvIsRowids(h[n - 1]);
      StepKeeps(h[n - 1], evs[n - 1]);
    }
  }
}

/** The read model's store: each method upserts, tombstones, evicts and retires rows in place. */
module WebhookStore {
  import opened Ordering
  import opened WebhookReadModel
  import opened WebhookRetirement

  /** A remembered deadline stays right: a pass changes no reception or repair time. */
  lemma RetiredKeepsDeadline(m: Model, u: Model, now: int, ref: Ref)
    requires Retired(m, u, now)
    ensures FamilyTimes(u, ref) == FamilyTimes(m, ref)
  {
    hide Protected, Idle;
    assert forall s | s in m.rows :: RowRetires(m, u, s, now);
  }

  /** Burying just the rows in `slots`. */
  lemma BuryOneMore(m: Model, slots: set<Slot>, s: Slot, now: int)
    requires s in m.rows && s !in slots
    ensures var u := Bury(m, slots, now);
            s in u.rows
            && u.(rows := u.rows[s := Row(u.rows[s].rowid, now, true, TOMBSTONE, now, false, 0)]) == Bury(m, slots + {s}, now)
    ensures Bury(m, {}, now) == m
  {
    var u := Bury(m, slots, now);
    assert u.rows[s := Row(u.rows[s].rowid, now, true, TOMBSTONE, now, false, 0)] == Bury(m, slots + {s}, now).rows;
    assert Bury(m, {}, now).rows == m.rows;
  }

  class Store {
    var model: Model

    constructor ()
      ensures model == EMPTY
    {
      model := EMPTY;
    }

    method RecheckItemProtection(ref: Ref)
      modifies this
      ensures model == Recheck(old(model), ref)
    {
      var s := Item(ref);
      if s in model.rows && model.rows[s].retireAt == PARKED {
        model := model.(rows := model.rows[s := model.rows[s].(retireAt := 0)]);
      }
    }

    method PruneItemRows(ref: Ref, table: Table)
      modifies this
      ensures model == Cap(old(model), ref, table)
    {
      hide Ranked, Overflow;
      var ranked := Ranked(model, ref, table);
      if |ranked| <= MAX_PER_ITEM {
        return;
      }
      var overflow := Overflow(model, ref, table);
      if table.Comments? {
        var c := if ref in model.collections then model.collections[ref].(complete := false) else Collection(0, false);
        model := model.(collections := model.collections[ref := c]);
      }
      model := model.(rows := model.rows - overflow);
    }

    method UpsertObject(o: Object, receivedAt: int, confirmed: bool, retire: bool)
      modifies this
      ensures model == Upsert(old(model), o, receivedAt, confirmed, retire)
    {
      hide Cap, WithKind;
      match o.slot {
        case Item(_) =>
          if o.slot in model.rows {
            var previous := model.rows[o.slot];
            if previous.sourceAt > o.sourceAt || (previous.sourceAt == o.sourceAt && !confirmed) {
              return;
            }
            var staysPruned := previous.pruned && !confirmed;
            var snapshot := if staysPruned then map[] else WithKind(previous.snapshot + o.snapshot, o.pull);
            model := Insert(model, o.slot, Row(previous.rowid, o.sourceAt, false, snapshot, receivedAt, staysPruned,
                                               receivedAt + RETENTION_MS));
          } else {
            model := Insert(model, o.slot, Row(model.next, o.sourceAt, false, WithKind(o.snapshot, o.pull), receivedAt, false,
                                               receivedAt + RETENTION_MS));
          }
        case Comment(ref, _) =>
          if o.slot !in model.rows || Supersedes(o, confirmed, model.rows[o.slot]) {
            model := Insert(model, o.slot, NewRow(model, o, receivedAt, retire));
            if retire {
              model := Incomplete(model, ref);
            }
            RecheckItemProtection(ref);
          }
          PruneItemRows(ref, Comments);
        case Activity(ref, _, _) =>
          if o.slot !in model.rows || Supersedes(o, confirmed, model.rows[o.slot]) {
            model := Insert(model, o.slot, NewRow(model, o, receivedAt, false));
          }
          PruneItemRows(ref, Activities);
      }
    }

    method Ingest(objects: seq<Object>, receivedAt: int)
      modifies this
      ensures model == Deliver(old(model), objects, receivedAt)
    {
      hide Upsert;
      var i := 0;
      while i < |objects|
        invariant 0 <= i <= |objects|
        invariant Deliver(model, objects[i..], receivedAt) == Deliver(old(model), objects, receivedAt)
      {
        assert objects[i..][1..] == objects[i + 1..];
        UpsertObject(objects[i], receivedAt, false, false);
        i := i + 1;
      }
    }

    /** A complete comment census: every live comment it does not list becomes a tombstone. */
    method RecordCensus(ref: Ref, live: set<int>, now: int)
      modifies this
      ensures model == Census(old(model), ref, live, now)
    {
      hide Unlisted, Bury;
      RecheckItemProtection(ref);
      ghost var start := model;
      var gone := Unlisted(model, ref, live);
      var left := gone;
      ghost var done: set<Slot> := {};
      UnlistedAreRows(model, ref, live);
      assert model == Bury(start, {}, now) by { BuryNone(model, now); }
      while left != {}
        invariant left <= gone && done == gone - left && model == Bury(start, done, now)
        decreases |left|
      {
        var s := AnyRow(left);
        BuryOneMore(start, done, s, now);
        model := model.(rows := model.rows[s := Row(model.rows[s].rowid, now, true, TOMBSTONE, now, false, 0)]);
        left := left - {s};
        done := done + {s};
      }
      assert done == gone;
      model := model.(collections := model.collections[ref := Collection(now, true)]);
    }

    method Repair(kind: RepairKind, objects: seq<Object>, refs: seq<Ref>, now: int)
      modifies this
      ensures model == WebhookReadModel.Repair(old(model), kind, objects, refs, now)
    {
      hide Upsert, Census, Retires;
      var i := 0;
      while i < |refs|
        invariant 0 <= i <= |refs|
        invariant Censuses(model, refs[i..], objects, now) == Censuses(old(model), refs, objects, now)
      {
        assert refs[i..][1..] == refs[i + 1..];
        RecordCensus(refs[i], LiveIds(objects, refs[i]), now);
        i := i + 1;
      }
      ghost var counted := model;
      assert counted == Censuses(old(model), refs, objects, now);
      i := 0;
      while i < |objects|
        invariant 0 <= i <= |objects|
        invariant Confirm(model, kind, objects[i..], now) == Confirm(counted, kind, objects, now)
      {
        assert objects[i..][1..] == objects[i + 1..];
        UpsertObject(objects[i], now, true, Retires(kind, objects[i]));
        i := i + 1;
      }
    }

    /** One batch of one table; a family's deadline is looked up once and then remembered. */
    method PruneBatch(batch: seq<Slot>, now: int, tally: Tally, remembered: map<Ref, int>)
      returns (counted: Tally, deadlines: map<Ref, int>)
      requires (forall s | s in batch :: s in model.rows) && now >= 0
      requires forall r | r in remembered :: FamilyTimes(model, r) != {} && remembered[r] == FamilyDeadline(model, r)
      modifies this
      ensures Passed(model, counted) == ProcessAll(Passed(old(model), tally), batch, now)
      ensures Retired(old(model), model, now)
      ensures forall r | r in deadlines :: FamilyTimes(model, r) != {} && deadlines[r] == FamilyDeadline(model, r)
    {
      hide Protected, FamilyTimes, Retired, IsDue, RetireAtTo, Incomplete;
      counted, deadlines := tally, remembered;
      var i := 0;
      RetiredItself(model, now);
      while i < |batch|
        invariant 0 <= i <= |batch|
        invariant forall s | s in batch :: s in model.rows
        invariant ProcessAll(Passed(model, counted), batch[i..], now) == ProcessAll(Passed(old(model), tally), batch, now)
        invariant Retired(old(model), model, now)
        invariant forall r | r in deadlines :: FamilyTimes(model, r) != {} && deadlines[r] == FamilyDeadline(model, r)
      {
        assert batch[i..][1..] == batch[i + 1..];
        var s := batch[i];
        ghost var before := Passed(model, counted);
        ProcessRetires(before, s, now);
        ProcessKeepsSlots(before, s, now);
        HasFamily(model, s);
        counted := counted.(scanned := counted.scanned + 1);
        if Protected(model, s) {
          model := RetireAtTo(model, s, PARKED);
          counted := counted.(parked := counted.parked + 1);
        } else {
          if s.ref !in deadlines {
            deadlines := deadlines[s.ref := FamilyDeadline(model, s.ref)];
          }
          if deadlines[s.ref] >= now {
            model := RetireAtTo(model, s, deadlines[s.ref]);
            counted := counted.(deferred := counted.deferred + 1);
          } else {
            model := Incomplete(model.(rows := model.rows[s := model.rows[s].(snapshot := map[], pruned := true)]), s.ref);
            counted := counted.(retired := counted.retired + 1);
          }
        }
        assert Passed(model, counted) == Process(before, s, now);
        RetiredTransitive(old(model), before.model, model, now);
        forall r ensures FamilyTimes(model, r) == FamilyTimes(before.model, r) {
          RetiredKeepsDeadline(before.model, model, now, r);
        }
        i := i + 1;
      }
    }

    method PrunePayloads(now: int) returns (tally: Tally)
      requires RowidsDistinct(model) && now >= 0
      modifies this
      ensures Passed(model, tally) == WebhookReadModel.PrunePayloads(old(model), now)
    {
      hide RowidsDistinct, Batch, ProcessAll, Retired, FamilyTimes;
      tally := Tally(0, 0, 0, 0);
      var deadlines: map<Ref, int> := map[];
      var batch := Batch(model, Items, now, PASS_LIMIT - tally.scanned);
      ProcessAllKeepsRowids(Passed(model, tally), batch, now);
      tally, deadlines := PruneBatch(batch, now, tally, deadlines);
      batch := Batch(model, Comments, now, PASS_LIMIT - tally.scanned);
      ProcessAllKeepsRowids(Passed(model, tally), batch, now);
      tally, deadlines := PruneBatch(batch, now, tally, deadlines);
      batch := Batch(model, Activities, now, PASS_LIMIT - tally.scanned);
      ProcessAllKeepsRowids(Passed(model, tally), batch, now);
      tally, deadlines := PruneBatch(batch, now, tally, deadlines);
    }
  }

  lemma HasFamily(m: Model, s: Slot)
    requires s in m.rows
    ensures FamilyTimes(m, s.ref) != {}
  {
    assert m.rows[s].receivedAt in FamilyTimes(m, s.ref);
  }

  lemma UnlistedAreRows(m: Model, ref: Ref, live: set<int>)
    ensures Unlisted(m, ref, live) <= m.rows.Keys
  {
  }

  lemma BuryNone(m: Model, now: int)
    ensures Bury(m, {}, now) == m
  {
    assert Bury(m, {}, now).rows == m.rows;
  }
}

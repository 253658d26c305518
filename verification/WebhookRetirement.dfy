/** Payload retirement is safe, and drains: it touches only idle, unprotected families, every row
    it scans leaves the due set, and an item it parks has a live placeholder as long as it is parked. */
module WebhookRetirement {
  import opened Ordering
  import opened WebhookReadModel

  // ----- what retirement may change -----

  ghost predicate SameStamp(a: Row, b: Row) {
    a.rowid == b.rowid && a.sourceAt == b.sourceAt && a.tombstone == b.tombstone && a.receivedAt == b.receivedAt
  }

  /** Everybody in the family has been idle for the whole retention period. */
  ghost predicate Idle(m: Model, ref: Ref, now: int) {
    && (forall s | s in m.rows && s.ref == ref :: m.rows[s].receivedAt + RETENTION_MS < now)
    && (ref in m.collections ==> m.collections[ref].repairedAt + RETENTION_MS < now)
  }

  ghost predicate RowRetires(m: Model, u: Model, s: Slot, now: int)
    requires s in m.rows && s in u.rows
  {
    && SameStamp(m.rows[s], u.rows[s])
    && (|| (u.rows[s].pruned == m.rows[s].pruned && u.rows[s].snapshot == m.rows[s].snapshot)
        || (u.rows[s].pruned && u.rows[s].snapshot == map[] && !Protected(m, s) && Idle(m, s.ref, now)))
  }

  /** Retirement keeps every row and its stamp; a payload goes only from an idle, unprotected row;
      a comment census can only be marked incomplete. */
  ghost predicate Retired(m: Model, u: Model, now: int) {
    && u.rows.Keys == m.rows.Keys && u.collections.Keys == m.collections.Keys && u.next == m.next
    && (forall s | s in m.rows :: RowRetires(m, u, s, now))
    && (forall r | r in m.collections ::
          u.collections[r] == m.collections[r] || u.collections[r] == m.collections[r].(complete := false))
  }

  lemma RetiredKeepsPlaceholders(m: Model, u: Model, now: int, ref: Ref)
    requires Retired(m, u, now)
    ensures HasPlaceholder(u, ref) == HasPlaceholder(m, ref)
  {
    if HasPlaceholder(m, ref) {
      var s :| s in m.rows && s.Comment? && s.ref == ref && !m.rows[s].tombstone && Marked(m.rows[s].snapshot);
      assert RowRetires(m, u, s, now) && Protected(m, s);
    }
    if HasPlaceholder(u, ref) {
      var s :| s in u.rows && s.Comment? && s.ref == ref && !u.rows[s].tombstone && Marked(u.rows[s].snapshot);
      assert RowRetires(m, u, s, now);
    }
  }

  lemma RetiredKeepsIdle(m: Model, u: Model, now: int, ref: Ref)
    requires Retired(m, u, now) && Idle(u, ref, now)
    ensures Idle(m, ref, now)
  {
    hide Protected, HasPlaceholder;
    forall s | s in m.rows && s.ref == ref ensures m.rows[s].receivedAt + RETENTION_MS < now {
      assert RowRetires(m, u, s, now);
    }
  }

  lemma RetiredTransitive(m: Model, u: Model, v: Model, now: int)
    requires Retired(m, u, now) && Retired(u, v, now)
    ensures Retired(m, v, now)
  {
    forall s | s in m.rows ensures RowRetires(m, v, s, now) {
      assert RowRetires(m, u, s, now) && RowRetires(u, v, s, now);
      RetiredKeepsPlaceholders(m, u, now, s.ref);
      hide HasPlaceholder, Idle, Retired;
      if Idle(u, s.ref, now) {
        RetiredKeepsIdle(m, u, now, s.ref);
      }
    }
  }

  lemma RetiredItself(m: Model, now: int)
    ensures Retired(m, m, now)
  {
    hide Protected, Idle;
  }

  // ----- one row -----

  lemma DeadlineMeansIdle(m: Model, ref: Ref, now: int)
    requires FamilyTimes(m, ref) != {} && FamilyDeadline(m, ref) < now
    ensures Idle(m, ref, now)
  {
    forall s | s in m.rows && s.ref == ref ensures m.rows[s].receivedAt + RETENTION_MS < now {
      assert m.rows[s].receivedAt in FamilyTimes(m, ref);
    }
    if ref in m.collections {
      assert m.collections[ref].repairedAt in FamilyTimes(m, ref);
    }
  }

  /** Parked, deferred or retired: in each case the row leaves the due set, and no other row moves. */
  lemma ProcessRetires(p: Passed, s: Slot, now: int)
    requires s in p.model.rows && now >= 0
    ensures var u := Process(p, s, now).model;
            && Retired(p.model, u, now)
            && (forall t | t in p.model.rows && t != s :: u.rows[t] == p.model.rows[t])
            && s in u.rows && !IsDue(s, u.rows[s], now)
            && (u.rows[s].retireAt == PARKED ==> Protected(p.model, s) || u.rows[s].retireAt == p.model.rows[s].retireAt)
  {
    hide Protected, Idle, FamilyDeadline;
    var m := p.model;
    assert m.rows[s].receivedAt in FamilyTimes(m, s.ref);
    if !Protected(m, s) && FamilyDeadline(m, s.ref) < now {
      DeadlineMeansIdle(m, s.ref, now);
    }
  }

  function AllDue(m: Model, now: int): set<Slot> {
    set s | s in m.rows && IsDue(s, m.rows[s], now)
  }

  lemma {:induction false} ProcessAllRetires(p: Passed, batch: seq<Slot>, now: int)
    requires (forall s | s in batch :: s in p.model.rows) && now >= 0
    ensures var u := ProcessAll(p, batch, now).model;
            && Retired(p.model, u, now)
            && (forall t | t in p.model.rows && t !in batch :: t in u.rows && u.rows[t] == p.model.rows[t])
            && (forall t | t in batch :: t in u.rows && !IsDue(t, u.rows[t], now))
    decreases |batch|
  {
    hide Process, Retired, IsDue;
    if batch == [] {
      RetiredItself(p.model, now);
    } else {
      var s := batch[0];
      var q := Process(p, s, now);
      ProcessKeepsSlots(p, s, now);
      ProcessRetires(p, s, now);
      ProcessAllRetires(q, batch[1..], now);
      RetiredTransitive(p.model, q.model, ProcessAll(p, batch, now).model, now);
      assert forall t :: t in batch <==> t == s || t in batch[1..];
    }
  }

  // ----- one table of a pass -----

  lemma BatchIsDue(m: Model, table: Table, now: int, n: int)
    requires RowidsDistinct(m) && n >= 0
    ensures var b := Batch(m, table, now, n);
            && (forall s | s in b :: s in AllDue(m, now) && TableOf(s) == table)
            && (forall i, j | 0 <= i < j < |b| :: b[i] != b[j])
            && |b| <= n
            && (|b| < n ==> forall s | s in AllDue(m, now) && TableOf(s) == table :: s in b)
  {
    hide Sorted, IsDue, RowidsDistinct;
    var due := DueIn(m, table, now);
    var b := Batch(m, table, now, n);
    forall s | s in b ensures s in due { assert s in Sorted(due); }
    forall i, j | 0 <= i < j < |b| ensures b[i] != b[j] {
      SortedAscends(due, i, j);
    }
    if |b| < n {
      assert b == Sorted(due);
      assert forall s | s in AllDue(m, now) && TableOf(s) == table :: s in due;
    }
  }

  function DueOf(m: Model, table: Table, now: int): set<Slot> {
    set s | s in AllDue(m, now) && TableOf(s) == table
  }

  /** What a pass did to one table: so many due rows of it are no longer due, as many as there are
      or as the limit left, and other tables' due rows are the same. */
  ghost predicate TableDone(m: Model, u: Model, table: Table, now: int, limit: int, scanned: int) {
    && Retired(m, u, now) && RowidsDistinct(u)
    && 0 <= scanned <= limit
    && DueOf(u, table, now) <= DueOf(m, table, now)
    && |DueOf(u, table, now)| == |DueOf(m, table, now)| - scanned
    && (scanned < limit ==> DueOf(u, table, now) == {})
    && (forall other | other != table :: DueOf(u, other, now) == DueOf(m, other, now))
  }

  lemma BatchLeavesDue(m: Model, u: Model, batch: seq<Slot>, now: int)
    requires u.rows.Keys == m.rows.Keys
    requires forall t | t in m.rows && t !in batch :: u.rows[t] == m.rows[t]
    requires forall t | t in batch :: t in u.rows && !IsDue(t, u.rows[t], now)
    ensures AllDue(u, now) == AllDue(m, now) - Members(batch)
  {
    hide IsDue;
  }

  lemma ProcessTableDone(p: Passed, table: Table, now: int)
    requires RowidsDistinct(p.model) && now >= 0 && p.tally.scanned <= PASS_LIMIT
    ensures var q := ProcessTable(p, table, now);
            TableDone(p.model, q.model, table, now, PASS_LIMIT - p.tally.scanned, q.tally.scanned - p.tally.scanned)
  {
    hide RowidsDistinct, Batch, ProcessAll, Retired, AllDue, IsDue, Members;
    var limit := PASS_LIMIT - p.tally.scanned;
    var batch := Batch(p.model, table, now, limit);
    var u := ProcessAll(p, batch, now).model;
    BatchIsDue(p.model, table, now, limit);
    ProcessAllRetires(p, batch, now);
    ProcessAllKeepsRowids(p, batch, now);
    RetiredKeys(p.model, u, now);
    BatchLeavesDue(p.model, u, batch, now);
    BatchIsOfTable(p.model, u, table, now, batch);
  }

  lemma RetiredKeys(m: Model, u: Model, now: int)
    requires Retired(m, u, now)
    ensures u.rows.Keys == m.rows.Keys
  {
    hide Protected, Idle;
  }

  lemma BatchIsOfTable(m: Model, u: Model, table: Table, now: int, batch: seq<Slot>)
    requires AllDue(u, now) == AllDue(m, now) - Members(batch)
    requires forall s | s in batch :: s in AllDue(m, now) && TableOf(s) == table
    requires forall i, j | 0 <= i < j < |batch| :: batch[i] != batch[j]
    ensures DueOf(u, table, now) == DueOf(m, table, now) - Members(batch)
    ensures |DueOf(u, table, now)| == |DueOf(m, table, now)| - |batch|
    ensures forall other | other != table :: DueOf(u, other, now) == DueOf(m, other, now)
    ensures (forall s | s in AllDue(m, now) && TableOf(s) == table :: s in batch) ==> DueOf(u, table, now) == {}
  {
    hide AllDue;
    DistinctMembers(batch);
    assert Members(batch) <= DueOf(m, table, now);
    assert DueOf(u, table, now) == DueOf(m, table, now) - Members(batch);
  }

  // ----- a whole pass -----

  lemma DueBySplit(m: Model, now: int)
    ensures |AllDue(m, now)| == |DueOf(m, Items, now)| + |DueOf(m, Comments, now)| + |DueOf(m, Activities, now)|
  {
    hide AllDue;
    var i, c, a := DueOf(m, Items, now), DueOf(m, Comments, now), DueOf(m, Activities, now);
    assert AllDue(m, now) == (i + c) + a;
    assert i !! c && (i + c) !! a;
    assert |i + c| == |i| + |c|;
  }

  /** A pass scans exactly min(64, due) rows, every row it scans leaves the due set, no row joins
      it, and only idle, unprotected payloads are gone. */
  lemma PassScansTheDue(m: Model, now: int)
    requires RowidsDistinct(m) && now >= 0
    ensures var p := PrunePayloads(m, now);
            && p.tally.scanned == Min(PASS_LIMIT, |AllDue(m, now)|)
            && |AllDue(p.model, now)| == |AllDue(m, now)| - p.tally.scanned
            && AllDue(p.model, now) <= AllDue(m, now)
            && Retired(m, p.model, now) && RowidsDistinct(p.model)
  {
    hide RowidsDistinct, ProcessTable, Retired, AllDue, DueOf, Batch, ProcessAll;
    var start := Passed(m, Tally(0, 0, 0, 0));
    ProcessTableDone(start, Items, now);
    var items := ProcessTable(start, Items, now);
    ProcessTableDone(items, Comments, now);
    var comments := ProcessTable(items, Comments, now);
    ProcessTableDone(comments, Activities, now);
    var p := ProcessTable(comments, Activities, now);
    assert p == PrunePayloads(m, now);
    RetiredTransitive(m, items.model, comments.model, now);
    RetiredTransitive(m, comments.model, p.model, now);
    DueBySplit(m, now);
    DueBySplit(p.model, now);
    DueShrinks(m, p.model, now);
    NoneAreDue(p.model, items.model, comments.model, now);
  }

  lemma NoneAreDue(p: Model, i: Model, c: Model, now: int)
    ensures DueOf(i, Items, now) == {} ==> |DueOf(i, Items, now)| == 0
    ensures DueOf(c, Comments, now) == {} ==> |DueOf(c, Comments, now)| == 0
    ensures DueOf(p, Activities, now) == {} ==> |DueOf(p, Activities, now)| == 0
  {
  }

  lemma DueShrinks(m: Model, u: Model, now: int)
    requires forall table: Table :: DueOf(u, table, now) <= DueOf(m, table, now)
    ensures AllDue(u, now) <= AllDue(m, now)
  {
    hide AllDue;
    forall s | s in AllDue(u, now) ensures s in AllDue(m, now) {
      assert s in DueOf(u, TableOf(s), now);
    }
  }

  ghost function Passes(m: Model, now: int, n: nat): Model
    requires RowidsDistinct(m)
    decreases n
  {
    hide RowidsDistinct, PrunePayloads, AllDue, Retired;
    if n == 0 || now < 0 then m
    else
      PassScansTheDue(m, now);
      Passes(PrunePayloads(m, now).model, now, n - 1)
  }

  /** At one point in time and with no writes, one pass for every 64 due rows empties the due set. */
  lemma {:induction false} PassesDrain(m: Model, now: int, n: nat)
    requires RowidsDistinct(m) && now >= 0 && |AllDue(m, now)| <= PASS_LIMIT * n
    ensures AllDue(Passes(m, now, n), now) == {} && Retired(m, Passes(m, now, n), now)
    decreases n
  {
    hide RowidsDistinct, PrunePayloads, AllDue, Retired;
    if n == 0 {
      RetiredItself(m, now);
    } else {
      var u := PrunePayloads(m, now).model;
      PassScansTheDue(m, now);
      PassesDrain(u, now, n - 1);
      RetiredTransitive(m, u, Passes(m, now, n), now);
    }
  }
}

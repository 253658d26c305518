/** What a scanned row becomes, and which rows one bounded pass scans. */
module WebhookPasses {
  import opened Ordering
  import opened WebhookReadModel
  import opened WebhookRetirement

  // ----- one row -----

  /** A live placeholder comment stands in the way: the row's own, or one under its item. */
  ghost predicate Unresolved(m: Model, s: Slot)
    requires s in m.rows
  {
    (s.Comment? && exists f | f in m.rows[s].snapshot :: m.rows[s].snapshot[f].marked)
    || (s.Item? && exists c | c in m.rows :: c.Comment? && c.ref == s.ref && !m.rows[c].tombstone
                                             && exists f | f in m.rows[c].snapshot :: m.rows[c].snapshot[f].marked)
  }

  /** When somebody in the family was last heard of. */
  ghost predicate HeardOf(m: Model, ref: Ref, at: int) {
    (exists s | s in m.rows :: s.ref == ref && m.rows[s].receivedAt == at) || (ref in m.collections && m.collections[ref].repairedAt == at)
  }

  /** A row under a placeholder is parked; one whose family was heard of within half an hour waits for
      half an hour after the last time; any other loses its payload, and its item's census its
      completeness. Nothing else changes. */
  lemma ProcessIsExact(p: Passed, s: Slot, now: int, last: int)
    requires s in p.model.rows && HeardOf(p.model, s.ref, last) && forall at | HeardOf(p.model, s.ref, at) :: at <= last
    ensures var m, q := p.model, Process(p, s, now);
            var row := m.rows[s];
            && q.tally.scanned == p.tally.scanned + 1
            && q.model.next == m.next
            && q.model.rows == m.rows[s :=
                 if Unresolved(m, s) then row.(retireAt := -1)
                 else if last + 1800000 >= now then row.(retireAt := last + 1800000)
                 else row.(snapshot := map[], pruned := true)]
            && q.model.collections ==
                 (if !Unresolved(m, s) && last + 1800000 < now && s.ref in m.collections
                  then m.collections[s.ref := m.collections[s.ref].(complete := false)] else m.collections)
            && q.tally == p.tally.(scanned := p.tally.scanned + 1,
                 parked := p.tally.parked + (if Unresolved(m, s) then 1 else 0),
                 deferred := p.tally.deferred + (if !Unresolved(m, s) && last + 1800000 >= now then 1 else 0),
                 retired := p.tally.retired + (if !Unresolved(m, s) && last + 1800000 < now then 1 else 0))
  {
    hide FamilyTimes;
    LastIsDeadline(p.model, s, last);
    assert Protected(p.model, s) <==> Unresolved(p.model, s);
  }

  lemma LastIsDeadline(m: Model, s: Slot, last: int)
    requires s in m.rows && HeardOf(m, s.ref, last) && forall at | HeardOf(m, s.ref, at) :: at <= last
    ensures m.rows[s].receivedAt in FamilyTimes(m, s.ref) && FamilyDeadline(m, s.ref) == last + 1800000
  {
    var times := FamilyTimes(m, s.ref);
    assert m.rows[s].receivedAt in times;
    forall at ensures at in times <==> HeardOf(m, s.ref, at) {}
    assert GreatestOf(times) == last;
  }

  // ----- which rows -----

  function TableRank(s: Slot): int {
    match s
    case Item(_) => 0
    case Comment(_, _) => 1
    case Activity(_, _, _) => 2
  }

  /** Items before comments before activity; in a table by the time a row fell due, then by its rowid. */
  ghost predicate ScannedBefore(m: Model, t: Slot, s: Slot)
    requires t in m.rows && s in m.rows
  {
    || TableRank(t) < TableRank(s)
    || (TableRank(t) == TableRank(s)
        && (m.rows[t].retireAt < m.rows[s].retireAt
            || (m.rows[t].retireAt == m.rows[s].retireAt && m.rows[t].rowid < m.rows[s].rowid)))
  }

  lemma BatchIsEarliest(m: Model, table: Table, now: int, n: int, t: Slot, s: Slot)
    requires RowidsDistinct(m) && t in Batch(m, table, now, n) && s !in Batch(m, table, now, n)
    requires s in m.rows && TableOf(s) == table && IsDue(s, m.rows[s], now)
    ensures t in m.rows && ScannedBefore(m, t, s)
  {
    hide Sorted, Limit, IsDue, RowidsDistinct;
    var due := DueIn(m, table, now);
    assert t in Sorted(due) by { InLimit(Sorted(due), n, t); }
    LimitKeepsTheLeast(due, n, t, s);
  }

  /** What one table's batch leaves due ranks after all it scanned; and it leaves nothing due while the
      limit is not met. */
  ghost predicate InOrder(m: Model, u: Model, table: Table, now: int) {
    && u.rows.Keys == m.rows.Keys
    && (forall t, s | t in m.rows && s in m.rows && TableOf(t) == table && TableOf(s) == table
                      && t in AllDue(m, now) && t !in AllDue(u, now) && s in AllDue(u, now) :: ScannedBefore(m, t, s))
    && (forall s | s in m.rows && TableOf(s) != table :: u.rows[s] == m.rows[s])
  }

  lemma TableInOrder(p: Passed, table: Table, now: int)
    requires RowidsDistinct(p.model) && now >= 0 && p.tally.scanned <= PASS_LIMIT
    ensures InOrder(p.model, ProcessTable(p, table, now).model, table, now)
  {
    hide RowidsDistinct, Batch, ProcessAll, Retired, IsDue, ScannedBefore;
    var limit := PASS_LIMIT - p.tally.scanned;
    var batch := Batch(p.model, table, now, limit);
    var u := ProcessTable(p, table, now).model;
    BatchIsDue(p.model, table, now, limit);
    ProcessAllRetires(p, batch, now);
    RetiredKeys(p.model, u, now);
    forall t, s | t in p.model.rows && s in p.model.rows && TableOf(t) == table && TableOf(s) == table
                  && t in AllDue(p.model, now) && t !in AllDue(u, now) && s in AllDue(u, now)
      ensures ScannedBefore(p.model, t, s)
    {
      assert t in batch && s !in batch && u.rows[s] == p.model.rows[s];
      BatchIsEarliest(p.model, table, now, limit, t, s);
    }
    forall s | s in p.model.rows && TableOf(s) != table ensures u.rows[s] == p.model.rows[s] { assert s !in batch; }
  }

  lemma FullPassStops(p: Passed, table: Table, now: int)
    requires RowidsDistinct(p.model) && p.tally.scanned == PASS_LIMIT
    ensures ProcessTable(p, table, now) == p
  {
    hide Sorted, RowidsDistinct, IsDue;
    assert |Batch(p.model, table, now, 0)| == 0;
  }

  lemma LeftMeansFull(m: Model, u: Model, table: Table, now: int, limit: int, scanned: int, s: Slot)
    requires TableDone(m, u, table, now, limit, scanned) && s in AllDue(u, now) && TableOf(s) == table
    ensures scanned == limit
  {
    assert s in DueOf(u, table, now);
  }

  /** A row that is left due ranks after every row the pass scanned. */
  lemma PassScansInOrder(m: Model, now: int, t: Slot, s: Slot)
    requires RowidsDistinct(m) && now >= 0 && t in m.rows && s in m.rows
    requires t in AllDue(m, now) && t !in AllDue(PrunePayloads(m, now).model, now) && s in AllDue(PrunePayloads(m, now).model, now)
    ensures ScannedBefore(m, t, s)
  {
    hide RowidsDistinct, ProcessTable, Retired, TableDone, IsDue, ScannedBefore, AllDue, InOrder;
    var start := Passed(m, Tally(0, 0, 0, 0));
    ProcessTableDone(start, Items, now);
    TableInOrder(start, Items, now);
    var items := ProcessTable(start, Items, now);
    DoneFacts(m, items.model, Items, now, 64, items.tally.scanned);
    ProcessTableDone(items, Comments, now);
    TableInOrder(items, Comments, now);
    var comments := ProcessTable(items, Comments, now);
    DoneFacts(items.model, comments.model, Comments, now, 64 - items.tally.scanned, comments.tally.scanned - items.tally.scanned);
    TableInOrder(comments, Activities, now);
    var p := ProcessTable(comments, Activities, now);
    assert p == PrunePayloads(m, now);
    StillDue(items.model, comments.model, p.model, now, s);
    if TableOf(s).Items? {
      LeftMeansFull(m, items.model, Items, now, 64, items.tally.scanned, s);
      FullPassStops(items, Comments, now);
      FullPassStops(comments, Activities, now);
    } else if TableOf(s).Comments? {
      LeftMeansFull(items.model, comments.model, Comments, now, 64 - items.tally.scanned, comments.tally.scanned - items.tally.scanned, s);
      FullPassStops(comments, Activities, now);
    }
    ByTable(m, items.model, comments.model, p.model, now, t, s);
  }

  lemma StillDue(i: Model, c: Model, u: Model, now: int, s: Slot)
    requires InOrder(i, c, Comments, now) && InOrder(c, u, Activities, now) && s in AllDue(u, now)
    ensures TableOf(s).Items? ==> s in AllDue(i, now)
    ensures TableOf(s).Comments? ==> s in AllDue(c, now)
  {
    hide IsDue;
  }

  lemma DoneFacts(m: Model, u: Model, table: Table, now: int, limit: int, scanned: int)
    requires TableDone(m, u, table, now, limit, scanned)
    ensures RowidsDistinct(u) && 0 <= scanned <= limit
  {
  }

  lemma ByTable(m: Model, i: Model, c: Model, u: Model, now: int, t: Slot, s: Slot)
    requires t in m.rows && s in m.rows && InOrder(m, i, Items, now) && InOrder(i, c, Comments, now) && InOrder(c, u, Activities, now)
    requires t in AllDue(m, now) && t !in AllDue(u, now) && s in AllDue(u, now)
    requires TableOf(s).Items? ==> c == i && u == c
    requires TableOf(s).Comments? ==> u == c
    ensures ScannedBefore(m, t, s)
  {
    hide AllDue, ScannedBefore;
    if TableRank(t) < TableRank(s) {
      LowerTableFirst(m, t, s);
    } else {
      RowsAlike(m, i, now, t);
      RowsAlike(i, c, now, t);
      RowsAlike(c, u, now, t);
      RowsAlike(m, i, now, s);
      RowsAlike(i, c, now, s);
      RowsAlike(c, u, now, s);
      if TableRank(t) == TableRank(s) { SameTableOrder(m, i, t, s); SameTableOrder(i, c, t, s); }
    }
  }

  lemma LowerTableFirst(m: Model, t: Slot, s: Slot)
    requires t in m.rows && s in m.rows && TableRank(t) < TableRank(s)
    ensures ScannedBefore(m, t, s)
  {
  }

  lemma RowsAlike(m: Model, u: Model, now: int, s: Slot)
    ensures s in m.rows && s in u.rows && u.rows[s] == m.rows[s] ==> (s in AllDue(m, now) <==> s in AllDue(u, now))
  {
    hide IsDue;
  }

  lemma SameTableOrder(m: Model, i: Model, t: Slot, s: Slot)
    requires t in m.rows && s in m.rows && i.rows.Keys == m.rows.Keys
    ensures i.rows[t] == m.rows[t] && i.rows[s] == m.rows[s] && ScannedBefore(i, t, s) ==> ScannedBefore(m, t, s)
  {
  }
}

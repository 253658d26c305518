/** What a projected row says, told from the open items and the records: when it is covered, how many
    items each category has, and who is refreshed first. */
module CoverageFacts {
  import opened Ordering
  import opened CoverageProjection

  /** The counts of an inventory are there, not from the future, and at most twelve hours old. */
  ghost predicate CountsAreCurrent(inv: Option<Inventory>, now: int) {
    && inv.Some? && inv.value.issues.Some? && inv.value.pulls.Some? && inv.value.countsAt.Some?
    && inv.value.countsAt.value <= now <= inv.value.countsAt.value + 43200000
  }

  /** A row is covered exactly when the scan is complete, the inventory eligible, complete and listed, its
      counts current, and no open item in review scope has an unreadable record. */
  lemma CoveredExactlyWhen(records: map<int, Record>, inv: Option<Inventory>, complete: bool, censusCurrent: bool, now: int, judge: Judge)
    requires inv.Some? ==> Normalized(inv.value)
    ensures Project(records, inv, complete, censusCurrent, now, judge).coverage <==>
              && complete && CountsAreCurrent(inv, now) && inv.value.eligible && inv.value.complete && inv.value.items.Some?
              && forall i | i in inv.value.items.value && !i.excluded && i.number in records :: !records[i.number].unavailable
  {
    hide Normalized, Sorted, Refreshes, Tallied, Numbers, CountExcluded, Distinct;
  }

  lemma CountsObservedExactlyWhen(records: map<int, Record>, inv: Option<Inventory>, complete: bool, censusCurrent: bool, now: int, judge: Judge)
    requires inv.Some? ==> Normalized(inv.value)
    ensures var f := Project(records, inv, complete, censusCurrent, now, judge);
            && (f.counts.Observed? <==> CountsAreCurrent(inv, now))
            && f.openRecords == (if CountsAreCurrent(inv, now) then Some(inv.value.issues.value + inv.value.pulls.value) else None)
  {
    hide Normalized, CountExcluded;
    ProjectedHead(records, inv, complete, censusCurrent, now, judge);
  }

  // ----- counts -----

  /** An open item's category: how its record is judged, or untracked without one. */
  ghost predicate Falls(i: OpenItem, records: map<int, Record>, judge: Judge, c: Category) {
    !i.excluded && c == if i.number in records then judge(records[i.number], i) else Untracked
  }

  ghost function Falling(items: seq<OpenItem>, records: map<int, Record>, judge: Judge, c: Category): set<nat> {
    set k: nat | k < |items| && Falls(items[k], records, judge, c)
  }

  ghost function Excluded(items: seq<OpenItem>): set<nat> { set k: nat | k < |items| && items[k].excluded }

  lemma {:induction false} CountsAreCardinalities(items: seq<OpenItem>, records: map<int, Record>, judge: Judge, c: Category)
    ensures CountOf(items, records, judge, c) == |Falling(items, records, judge, c)|
    ensures CountExcluded(items) == |Excluded(items)|
    decreases |items|
  {
    hide Falling, Excluded, Falls;
    if items == [] {
      NothingFalls(records, judge, c);
    } else {
      CountsAreCardinalities(items[..|items| - 1], records, judge, c);
      FallingNext(items, records, judge, c);
      ExcludedNext(items);
      LastFalls(items[|items| - 1], records, judge, c);
    }
  }

  lemma NothingFalls(records: map<int, Record>, judge: Judge, c: Category)
    ensures Falling([], records, judge, c) == {} && Excluded([]) == {}
  {
  }

  lemma LastFalls(i: OpenItem, records: map<int, Record>, judge: Judge, c: Category)
    ensures Falls(i, records, judge, c) <==> !i.excluded && Judged(i, records, judge) == c
  {
  }

  lemma FallingNext(items: seq<OpenItem>, records: map<int, Record>, judge: Judge, c: Category)
    requires items != []
    ensures |Falling(items, records, judge, c)|
         == |Falling(items[..|items| - 1], records, judge, c)| + if Falls(items[|items| - 1], records, judge, c) then 1 else 0
  {
    hide Falls;
    var n: nat := |items| - 1;
    assert Falling(items, records, judge, c)
        == Falling(items[..n], records, judge, c) + if Falls(items[n], records, judge, c) then {n} else {};
  }

  lemma ExcludedNext(items: seq<OpenItem>)
    requires items != []
    ensures |Excluded(items)| == |Excluded(items[..|items| - 1])| + if items[|items| - 1].excluded then 1 else 0
  {
    var n: nat := |items| - 1;
    assert Excluded(items) == Excluded(items[..n]) + if items[n].excluded then {n} else {};
  }

  /** A covered row counts every open item in review scope under its category, and as drift every record
      without an open item. */
  lemma CoveredRowsCount(records: map<int, Record>, inv: Option<Inventory>, complete: bool, censusCurrent: bool, now: int, judge: Judge,
                         c: Category)
    requires inv.Some? ==> Normalized(inv.value)
    requires Project(records, inv, complete, censusCurrent, now, judge).coverage
    ensures inv.Some? && inv.value.items.Some?
    ensures var f := Project(records, inv, complete, censusCurrent, now, judge);
            var items := inv.value.items.value;
            && c in f.categories && f.categories[c] == |Falling(items, records, judge, c)|
            && f.excluded == (if censusCurrent then |Excluded(items)| else 0)
            && f.drift == |set n | n in records && (forall i | i in items :: i.number != n)|
  {
    hide Normalized, Sorted, Refreshes, CountOf, CountExcluded, Distinct, Falling, Excluded;
    CoveredExactlyWhen(records, inv, complete, censusCurrent, now, judge);
    var items := inv.value.items.value;
    CountsAreCardinalities(items, records, judge, c);
    ProjectedHead(records, inv, complete, censusCurrent, now, judge);
    assert c in CATEGORIES by { assert c.Reviewed? || c.Stale? || c.Failed? || c.Expired? || c.Unreviewed? || c.Untracked?; }
    assert records.Keys - Numbers(items) == (set n | n in records && (forall i | i in items :: i.number != n));
  }

  // ----- the refresh list -----

  /** Never reviewed first, then by the time of the last review, then by number. */
  ghost predicate Sooner(r: Refresh, s: Refresh) {
    var a := if r.reviewedAt.Some? then r.reviewedAt.value else 0;
    var b := if s.reviewedAt.Some? then s.reviewedAt.value else 0;
    a < b || (a == b && r.number < s.number)
  }

  /** The entry of an open item in review scope that is not reviewed; a review from the future is none. */
  ghost predicate EntryFor(r: Refresh, i: OpenItem, records: map<int, Record>, judge: Judge, now: int) {
    var at := if i.number in records then records[i.number].reviewedAt else None;
    && !i.excluded && Falls(i, records, judge, r.category) && !r.category.Reviewed?
    && r == Refresh(i.number, i.pull, if at.Some? && at.value <= now then at else None, r.category)
  }

  lemma EntriesAreRefreshes(items: seq<OpenItem>, records: map<int, Record>, judge: Judge, now: int, r: Refresh)
    ensures r in AllRefreshes(items, records, judge, now) <==> exists i :: i in items && EntryFor(r, i, records, judge, now)
  {
    if r in AllRefreshes(items, records, judge, now) {
      var i :| i in items && NeedsRefresh(i, records, judge) && r == RefreshOf(i, records, judge, now);
      assert EntryFor(r, i, records, judge, now);
    }
    if i :| i in items && EntryFor(r, i, records, judge, now) {
      assert NeedsRefresh(i, records, judge) && r == RefreshOf(i, records, judge, now);
    }
  }

  /** The refresh list is ordered, holds entries of open items only, and leaves one out only when it is
      full, and only for sooner ones. */
  lemma RefreshListIsSoonest(records: map<int, Record>, inv: Option<Inventory>, complete: bool, censusCurrent: bool, now: int, judge: Judge)
    requires inv.Some? ==> Normalized(inv.value)
    requires Project(records, inv, complete, censusCurrent, now, judge).coverage
    ensures inv.Some? && inv.value.items.Some?
    ensures var list := Project(records, inv, complete, censusCurrent, now, judge).refresh;
            var items := inv.value.items.value;
            && |list| <= 16
            && (forall x, y | 0 <= x < y < |list| :: Sooner(list[x], list[y]))
            && (forall r | r in list :: exists i :: i in items && EntryFor(r, i, records, judge, now))
            && (forall r, i | i in items && EntryFor(r, i, records, judge, now) && r !in list ::
                  |list| == 16 && forall s | s in list :: Sooner(s, r))
  {
    hide Sorted, CountOf, CountExcluded, AllRefreshes, EntryFor, Tallied, Numbers;
    CoveredExactlyWhen(records, inv, complete, censusCurrent, now, judge);
    var items := inv.value.items.value;
    RefreshesAreDistinct(items, records, judge, now);
    var ranks := Refreshes(items, records, judge, now);
    var list := Project(records, inv, complete, censusCurrent, now, judge).refresh;
    assert list == Limit(Sorted(ranks), REFRESH_LIMIT);
    hide Refreshes, Limit, Distinct, Project, Normalized;
    ListedAreFirst(items, records, judge, now, list);
  }

  lemma ListedAreFirst(items: seq<OpenItem>, records: map<int, Record>, judge: Judge, now: int, list: seq<Refresh>)
    requires Distinct(Refreshes(items, records, judge, now))
    requires list == Limit(Sorted(Refreshes(items, records, judge, now)), REFRESH_LIMIT)
    ensures |list| <= 16
    ensures forall x, y | 0 <= x < y < |list| :: Sooner(list[x], list[y])
    ensures forall r | r in list :: exists i :: i in items && EntryFor(r, i, records, judge, now)
    ensures forall r, i | i in items && EntryFor(r, i, records, judge, now) && r !in list ::
              |list| == 16 && forall s | s in list :: Sooner(s, r)
  {
    hide Sorted, AllRefreshes, EntryFor, Distinct;
    var ranks := Refreshes(items, records, judge, now);
    forall x, y | 0 <= x < y < |list| ensures Sooner(list[x], list[y]) { SortedAscends(ranks, x, y); }
    forall r | r in list ensures exists i :: i in items && EntryFor(r, i, records, judge, now) {
      assert r in Sorted(ranks);
      EntriesAreRefreshes(items, records, judge, now, r);
    }
    forall r, i | i in items && EntryFor(r, i, records, judge, now) && r !in list
      ensures |list| == 16 && forall s | s in list :: Sooner(s, r)
    {
      EntriesAreRefreshes(items, records, judge, now, r);
      assert r in ranks && r in Sorted(ranks);
      forall s | s in list ensures Sooner(s, r) {
        assert s in Sorted(ranks);
        LimitKeepsTheLeast(ranks, REFRESH_LIMIT, s, r);
      }
    }
  }
}

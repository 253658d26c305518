/** One repository's coverage, projected from its scanned records and the open inventory, against the
    identities its public reader checks. */
module CoverageProjection {
  import opened Ordering

  datatype Category = Reviewed | Stale | Failed | Expired | Unreviewed | Untracked

  datatype Record = Record(reviewedAt: Option<int>, unavailable: bool, facts: string)

  /** `excluded`: its labels keep it out of review. */
  datatype OpenItem = OpenItem(number: int, pull: bool, excluded: bool, facts: string)

  datatype Inventory = Inventory(
    issues: Option<int>,
    pulls: Option<int>,
    countsAt: Option<int>,
    eligible: bool,
    complete: bool,
    items: Option<seq<OpenItem>>)

  datatype CountStatus = Observed | Missing | Old | Future

  datatype Refresh = Refresh(number: int, pull: bool, reviewedAt: Option<int>, category: Category)

  datatype Fleet = Fleet(
    openRecords: Option<int>,
    counts: CountStatus,
    countsAt: Option<int>,
    eligible: bool,
    reviewable: int,
    categories: map<Category, int>,
    pending: int,
    excluded: int,
    drift: int,
    coverage: bool,
    census: bool,
    refresh: seq<Refresh>)

  const STALE_MS := 43200000
  const MAX_COUNT := 10000000
  const REFRESH_LIMIT := 16
  const CATEGORIES: set<Category> := {Reviewed, Stale, Failed, Expired, Unreviewed, Untracked}

  /** How a record that is there is judged; it never judges an item untracked. */
  type Judge = (Record, OpenItem) -> Category

  // ----- what normalization guarantees -----

  function CountKind(items: seq<OpenItem>, pull: bool): nat {
    if items == [] then 0 else CountKind(items[..|items| - 1], pull) + if items[|items| - 1].pull == pull then 1 else 0
  }

  /** Item numbers are positive and distinct; a complete census lists as many of each kind as counted. */
  ghost predicate Normalized(inv: Inventory) {
    && (inv.issues.Some? ==> inv.issues.value >= 0) && (inv.pulls.Some? ==> inv.pulls.value >= 0)
    && (inv.items.Some? ==>
          && (forall i | i in inv.items.value :: i.number >= 1)
          && (forall i, j | 0 <= i < j < |inv.items.value| :: inv.items.value[i].number != inv.items.value[j].number)
          && (inv.complete ==> inv.issues == Some(CountKind(inv.items.value, false)) && inv.pulls == Some(CountKind(inv.items.value, true))))
  }

  // ----- the projection -----

  function StatusOf(inv: Option<Inventory>, now: int): CountStatus {
    if inv.None? || inv.value.issues.None? || inv.value.pulls.None? || inv.value.countsAt.None? then Missing
    else if inv.value.countsAt.value > now then Future
    else if now - inv.value.countsAt.value > STALE_MS then Old
    else Observed
  }

  function CountExcluded(items: seq<OpenItem>): nat {
    if items == [] then 0 else CountExcluded(items[..|items| - 1]) + if items[|items| - 1].excluded then 1 else 0
  }

  function Judged(i: OpenItem, records: map<int, Record>, judge: Judge): Category {
    if i.number in records then judge(records[i.number], i) else Untracked
  }

  function CountOf(items: seq<OpenItem>, records: map<int, Record>, judge: Judge, c: Category): nat {
    if items == [] then 0
    else
      var i := items[|items| - 1];
      CountOf(items[..|items| - 1], records, judge, c) + if !i.excluded && Judged(i, records, judge) == c then 1 else 0
  }

  predicate NeedsRefresh(i: OpenItem, records: map<int, Record>, judge: Judge) {
    !i.excluded && !Judged(i, records, judge).Reviewed?
  }

  function RefreshOf(i: OpenItem, records: map<int, Record>, judge: Judge, now: int): Refresh {
    var at := if i.number in records then records[i.number].reviewedAt else None;
    Refresh(i.number, i.pull, if at.Some? && at.value <= now then at else None, Judged(i, records, judge))
  }

  function RefreshRank(r: Refresh): Rank { Rank(if r.reviewedAt.Some? then r.reviewedAt.value else 0, r.number, 0) }

  /** Every item that needs a refresh, by what it was reviewed at and then its number. */
  function Refreshes(items: seq<OpenItem>, records: map<int, Record>, judge: Judge, now: int): map<Refresh, Rank> {
    map r | r in AllRefreshes(items, records, judge, now) :: RefreshRank(r)
  }

  function AllRefreshes(items: seq<OpenItem>, records: map<int, Record>, judge: Judge, now: int): set<Refresh> {
    set i | i in items && NeedsRefresh(i, records, judge) :: RefreshOf(i, records, judge, now)
  }

  ghost predicate NumbersDistinct(items: seq<OpenItem>) {
    forall i, j | 0 <= i < j < |items| :: items[i].number != items[j].number
  }

  lemma RefreshesAreDistinct(items: seq<OpenItem>, records: map<int, Record>, judge: Judge, now: int)
    requires NumbersDistinct(items)
    ensures Distinct(Refreshes(items, records, judge, now))
  {
    var ranks := Refreshes(items, records, judge, now);
    forall r, s | r in ranks && s in ranks && ranks[r] == ranks[s] ensures r == s {
      var i :| i in items && NeedsRefresh(i, records, judge) && r == RefreshOf(i, records, judge, now);
      var j :| j in items && NeedsRefresh(j, records, judge) && s == RefreshOf(j, records, judge, now);
      var a :| 0 <= a < |items| && items[a] == i;
      var b :| 0 <= b < |items| && items[b] == j;
      assert i.number == j.number;
      assert a == b;
    }
  }

  function Zeroes(): map<Category, int> { map c | c in CATEGORIES :: 0 }

  function Tallied(items: seq<OpenItem>, records: map<int, Record>, judge: Judge): map<Category, int> {
    map c | c in CATEGORIES :: CountOf(items, records, judge, c)
  }

  function Numbers(items: seq<OpenItem>): set<int> { set i | i in items :: i.number }

  /** A reader may count on a census that is current, complete and in scope. */
  predicate CensusKnown(inv: Option<Inventory>, censusCurrent: bool) {
    censusCurrent && inv.Some? && inv.value.eligible && inv.value.complete && inv.value.items.Some?
  }

  predicate CountsKnown(inv: Option<Inventory>, now: int) { StatusOf(inv, now).Observed? }

  /** Some open item's record exists but could not be read. */
  predicate EvidenceMissing(items: seq<OpenItem>, records: map<int, Record>) {
    exists i | i in items :: !i.excluded && i.number in records && records[i.number].unavailable
  }

  function OpenCount(inv: Option<Inventory>, now: int): Option<int> {
    if StatusOf(inv, now).Observed? then Some(inv.value.issues.value + inv.value.pulls.value) else None
  }

  function Project(records: map<int, Record>, inv: Option<Inventory>, complete: bool, censusCurrent: bool, now: int, judge: Judge): Fleet
    requires inv.Some? ==> Normalized(inv.value)
  {
    var status := StatusOf(inv, now);
    var openRecords := OpenCount(inv, now);
    var census := CensusKnown(inv, censusCurrent);
    var excluded := if census then CountExcluded(inv.value.items.value) else 0;
    var reviewable := if census then (if openRecords.Some? then openRecords.value else 0) - excluded else 0;
    var covered := complete && CensusKnown(inv, true) && status.Observed?;
    var bare := Fleet(openRecords, status, if inv.Some? then inv.value.countsAt else None,
                      inv.Some? && inv.value.eligible, reviewable, Zeroes(), 0, excluded, 0, covered, census, []);
    if !covered then bare
    else if EvidenceMissing(inv.value.items.value, records) then bare.(coverage := false)
    else
      var items := inv.value.items.value;
      RefreshesAreDistinct(items, records, judge, now);
      var tally := Tallied(items, records, judge);
      bare.(
      categories := tally,
      pending := tally[Expired] + tally[Unreviewed] + tally[Untracked],
      drift := |records.Keys - Numbers(items)|,
      refresh := Limit(Sorted(Refreshes(items, records, judge, now)), REFRESH_LIMIT))
  }

  // ----- the public reader -----

  predicate Count(n: int) { 0 <= n <= MAX_COUNT }

  /** What the validator of the public coverage asks of one row's counts. */
  predicate RowAccepted(f: Fleet, inventoryCurrent: bool, scanCurrent: bool)
    requires f.categories.Keys == CATEGORIES
  {
    var countKnown := f.counts.Observed? && f.countsAt.Some?;
    var censusKnown := f.eligible && countKnown && f.census && inventoryCurrent;
    var known := censusKnown && f.coverage && inventoryCurrent && scanCurrent;
    && (f.openRecords.Some? ==> Count(f.openRecords.value)) && (countKnown ==> f.openRecords.Some?)
    && Count(f.reviewable) && (forall c | c in f.categories :: Count(f.categories[c]))
    && Count(f.pending) && Count(f.excluded) && Count(f.drift)
    && (censusKnown ==> f.openRecords.Some? && f.openRecords.value == f.reviewable + f.excluded)
    && (known ==>
          && f.reviewable == f.categories[Reviewed] + f.categories[Stale] + f.categories[Failed]
                             + f.categories[Expired] + f.categories[Unreviewed] + f.categories[Untracked]
          && f.pending == f.categories[Expired] + f.categories[Unreviewed] + f.categories[Untracked]
          && (forall r | r in f.refresh :: r.number >= 1 && !r.category.Reviewed?))
  }

  // ----- conservation -----

  lemma {:induction false} KindsAreAll(items: seq<OpenItem>)
    ensures CountKind(items, false) + CountKind(items, true) == |items|
    decreases |items|
  {
    if items != [] {
      KindsAreAll(items[..|items| - 1]);
    }
  }

  /** Every open item is excluded or counted in exactly one category. */
  lemma {:induction false} CategoriesAreAll(items: seq<OpenItem>, records: map<int, Record>, judge: Judge)
    ensures CountExcluded(items)
            + CountOf(items, records, judge, Reviewed) + CountOf(items, records, judge, Stale) + CountOf(items, records, judge, Failed)
            + CountOf(items, records, judge, Expired) + CountOf(items, records, judge, Unreviewed) + CountOf(items, records, judge, Untracked)
            == |items|
    decreases |items|
  {
    hide Judged;
    if items != [] {
      CategoriesAreAll(items[..|items| - 1], records, judge);
    }
  }

  /** A fleet projected complete from a normalized inventory meets the reader's three identities. */
  lemma CompleteFleetsBalance(records: map<int, Record>, inv: Option<Inventory>, complete: bool, censusCurrent: bool, now: int, judge: Judge)
    requires inv.Some? ==> Normalized(inv.value)
    requires complete ==> censusCurrent
    ensures var f := Project(records, inv, complete, censusCurrent, now, judge);
            f.coverage ==>
              && f.openRecords == Some(f.reviewable + f.excluded)
              && f.reviewable == f.categories[Reviewed] + f.categories[Stale] + f.categories[Failed]
                                 + f.categories[Expired] + f.categories[Unreviewed] + f.categories[Untracked]
              && f.pending == f.categories[Expired] + f.categories[Unreviewed] + f.categories[Untracked]
  {
    hide CountOf, CountExcluded, CountKind, Sorted, Refreshes, EvidenceMissing, Numbers;
    if CensusKnown(inv, true) {
      KindsAreAll(inv.value.items.value);
      CategoriesAreAll(inv.value.items.value, records, judge);
    }
  }

  lemma {:induction false} CountsAreBounded(items: seq<OpenItem>, records: map<int, Record>, judge: Judge, c: Category)
    ensures CountExcluded(items) <= |items| && CountOf(items, records, judge, c) <= |items|
    decreases |items|
  {
    if items != [] {
      CountsAreBounded(items[..|items| - 1], records, judge, c);
    }
  }

  lemma RefreshesAreOpen(items: seq<OpenItem>, records: map<int, Record>, judge: Judge, now: int)
    requires NumbersDistinct(items) && forall i | i in items :: i.number >= 1
    ensures Distinct(Refreshes(items, records, judge, now))
    ensures forall r | r in Limit(Sorted(Refreshes(items, records, judge, now)), REFRESH_LIMIT) :: r.number >= 1 && !r.category.Reviewed?
  {
    hide Sorted, Judged;
    RefreshesAreDistinct(items, records, judge, now);
    var ranks := Refreshes(items, records, judge, now);
    forall r | r in Limit(Sorted(ranks), REFRESH_LIMIT) ensures r.number >= 1 && !r.category.Reviewed? {
      assert r in Sorted(ranks);
      assert r in ranks;
    }
  }

  /** No count of the row is beyond what the reader takes for a count. */
  ghost predicate Small(records: map<int, Record>, inv: Option<Inventory>) {
    && |records| <= MAX_COUNT
    && (inv.Some? && inv.value.issues.Some? && inv.value.pulls.Some? ==> inv.value.issues.value + inv.value.pulls.value <= MAX_COUNT)
  }

  /** The fields of a projected row that do not depend on how its records are judged. */
  lemma ProjectedHead(records: map<int, Record>, inv: Option<Inventory>, complete: bool, censusCurrent: bool, now: int, judge: Judge)
    requires inv.Some? ==> Normalized(inv.value)
    ensures var f := Project(records, inv, complete, censusCurrent, now, judge);
            var census := CensusKnown(inv, censusCurrent);
            var excluded := if census then CountExcluded(inv.value.items.value) else 0;
            && f.openRecords == OpenCount(inv, now) && f.counts == StatusOf(inv, now) && f.excluded == excluded && f.census == census
            && f.countsAt == (if inv.Some? then inv.value.countsAt else None)
            && f.eligible == (inv.Some? && inv.value.eligible)
            && f.reviewable == (if census then (if f.openRecords.Some? then f.openRecords.value else 0) - excluded else 0)
  {
    hide CountExcluded, Normalized, Sorted, Refreshes, EvidenceMissing, Tallied, Numbers, StatusOf, OpenCount, Distinct;
  }

  /** The counts of the categories are all zero, or all those of the open items. */
  lemma ProjectedTally(records: map<int, Record>, inv: Option<Inventory>, complete: bool, censusCurrent: bool, now: int, judge: Judge)
    requires (inv.Some? ==> Normalized(inv.value)) && |records| <= MAX_COUNT
    requires CensusKnown(inv, true) && CountsKnown(inv, now) ==> |inv.value.items.value| <= MAX_COUNT
    ensures var f := Project(records, inv, complete, censusCurrent, now, judge);
            && f.categories.Keys == CATEGORIES
            && (forall c | c in f.categories :: Count(f.categories[c]))
            && Count(f.pending) && Count(f.drift)
            && (forall r | r in f.refresh :: r.number >= 1 && !r.category.Reviewed?)
  {
    hide CountOf, CountExcluded, CountKind, Sorted, Limit, Refreshes, EvidenceMissing, Numbers, Distinct, StatusOf, OpenCount;
    if CensusKnown(inv, true) && StatusOf(inv, now).Observed? {
      var items := inv.value.items.value;
      forall c | c in CATEGORIES ensures CountOf(items, records, judge, c) <= |items| {
        CountsAreBounded(items, records, judge, c);
      }
      CategoriesAreAll(items, records, judge);
      RefreshesAreOpen(items, records, judge, now);
      DriftIsSmall(records, items);
    }
  }

  lemma CensusIsSmall(records: map<int, Record>, inv: Option<Inventory>, now: int)
    requires (inv.Some? ==> Normalized(inv.value)) && Small(records, inv) && CensusKnown(inv, true)
    ensures var items := inv.value.items.value;
            && CountExcluded(items) <= |items| <= MAX_COUNT
            && (CountsKnown(inv, now) ==> OpenCount(inv, now) == Some(|items|))
            && (!CountsKnown(inv, now) ==> OpenCount(inv, now).None?)
  {
    hide CountKind, CountExcluded;
    KindsAreAll(inv.value.items.value);
    CountsAreBounded(inv.value.items.value, records, (_, _) => Reviewed, Reviewed);
  }

  lemma OpenCountIsSmall(records: map<int, Record>, inv: Option<Inventory>, now: int)
    requires (inv.Some? ==> Normalized(inv.value)) && Small(records, inv)
    ensures OpenCount(inv, now).Some? ==> CountsKnown(inv, now) && Count(OpenCount(inv, now).value) && inv.value.countsAt.Some?
    ensures CountsKnown(inv, now) ==> OpenCount(inv, now).Some?
    ensures CensusKnown(inv, true) ==> inv.Some? && inv.value.eligible
  {
    hide CountKind;
  }

  /** The one way a projected row is refused: the census is current and complete while its counts are
      not, and it lists an excluded item, so the reviewable count falls below zero. */
  lemma RowAcceptedExactlyWhen(records: map<int, Record>, inv: Option<Inventory>, complete: bool, censusCurrent: bool, now: int, judge: Judge)
    requires inv.Some? ==> Normalized(inv.value)
    requires (complete ==> censusCurrent) && Small(records, inv)
    ensures var f := Project(records, inv, complete, censusCurrent, now, judge);
            && f.categories.Keys == CATEGORIES
            && (RowAccepted(f, censusCurrent, complete) <==>
                  !(CensusKnown(inv, censusCurrent) && !CountsKnown(inv, now) && CountExcluded(inv.value.items.value) > 0))
  {
    hide Project, OpenCount, CountExcluded, Normalized;
    CompleteFleetsBalance(records, inv, complete, censusCurrent, now, judge);
    ProjectedHead(records, inv, complete, censusCurrent, now, judge);
    OpenCountIsSmall(records, inv, now);
    if CensusKnown(inv, true) {
      CensusIsSmall(records, inv, now);
    }
    ProjectedTally(records, inv, complete, censusCurrent, now, judge);
  }

  lemma DriftIsSmall(records: map<int, Record>, items: seq<OpenItem>)
    ensures |records.Keys - Numbers(items)| <= |records|
  {
    assert |records| == |records.Keys|;
    SubsetSize(records.Keys - Numbers(items), records.Keys);
  }

  /** Concretely: one excluded issue, counted thirteen hours ago, in a census that is current. */
  lemma OldCountsAreRefused(judge: Judge) returns (inv: Inventory, now: int)
    ensures Normalized(inv) && CensusKnown(Some(inv), true)
    ensures var f := Project(map[], Some(inv), true, true, now, judge);
            f.categories.Keys == CATEGORIES && !RowAccepted(f, true, true)
  {
    var item := OpenItem(1, false, true, "");
    inv := Inventory(Some(1), Some(0), Some(0), true, true, Some([item]));
    now := 46800000;
    assert [item][..0] == [] && CountExcluded([item][..0]) == 0 && [item][0].excluded;
    assert CountExcluded([item]) == CountExcluded([item][..0]) + 1;
    assert CountKind([item], false) == 1 && CountKind([item], true) == 0 && CountExcluded([item]) == 1;
    RowAcceptedExactlyWhen(map[], Some(inv), true, true, now, judge);
  }

  // ----- keeping only the first sixteen -----

  function RefreshRanks(s: set<Refresh>): map<Refresh, Rank> { map r | r in s :: RefreshRank(r) }

  /** Sorting and truncating after each addition keeps what sorting once at the end would. */
  lemma TruncatingIsFaithful(all: set<Refresh>, x: Refresh, kept: seq<Refresh>)
    requires Distinct(RefreshRanks(all + {x})) && Distinct(RefreshRanks(all)) && kept == Limit(Sorted(RefreshRanks(all)), REFRESH_LIMIT)
    ensures Distinct(RefreshRanks(Members(kept) + {x}))
    ensures Limit(Sorted(RefreshRanks(Members(kept) + {x})), REFRESH_LIMIT) == Limit(Sorted(RefreshRanks(all + {x})), REFRESH_LIMIT)
  {
    hide Sorted, Limit, RefreshRank, Distinct;
    var whole := RefreshRanks(all + {x});
    var part := RefreshRanks(Members(kept) + {x});
    KeptAreAmong(all, kept);
    AmongIsDistinct(part, whole);
    forall r | r in Limit(Sorted(whole), REFRESH_LIMIT) ensures r in part {
      if r != x {
        IsMember(whole, r);
        FirstOfAllIsFirstOfPart(RefreshRanks(all), whole, REFRESH_LIMIT, r);
      }
    }
    LimitIgnoresTheRest(part, whole, REFRESH_LIMIT);
  }

  lemma IsMember(ranks: map<Refresh, Rank>, r: Refresh)
    requires Distinct(ranks) && r in Limit(Sorted(ranks), REFRESH_LIMIT)
    ensures r in ranks
  {
    assert r in Sorted(ranks);
  }

  lemma KeptAreAmong(all: set<Refresh>, kept: seq<Refresh>)
    requires Distinct(RefreshRanks(all)) && kept == Limit(Sorted(RefreshRanks(all)), REFRESH_LIMIT)
    ensures forall r | r in kept :: r in all
  {
    hide Distinct, RefreshRank;
    forall r | r in kept ensures r in all {
      IsMember(RefreshRanks(all), r);
    }
  }

  lemma PrefixIsDistinct(items: seq<OpenItem>, n: nat, records: map<int, Record>, judge: Judge, now: int)
    requires NumbersDistinct(items) && n <= |items|
    ensures Distinct(Refreshes(items[..n], records, judge, now))
    ensures Refreshes(items[..n], records, judge, now) == RefreshRanks(AllRefreshes(items[..n], records, judge, now))
  {
    assert NumbersDistinct(items[..n]);
    RefreshesAreDistinct(items[..n], records, judge, now);
  }

  lemma NextRefresh(items: seq<OpenItem>, n: nat, records: map<int, Record>, judge: Judge, now: int)
    requires n < |items|
    ensures AllRefreshes(items[..n + 1], records, judge, now)
         == AllRefreshes(items[..n], records, judge, now)
            + if NeedsRefresh(items[n], records, judge) then {RefreshOf(items[n], records, judge, now)} else {}
  {
    hide NeedsRefresh, RefreshOf;
    assert items[..n + 1] == items[..n] + [items[n]];
    assert forall i :: i in items[..n + 1] <==> i in items[..n] || i == items[n];
  }

  lemma TallyStep(items: seq<OpenItem>, n: nat, records: map<int, Record>, judge: Judge)
    requires n < |items|
    ensures var before, i := Tallied(items[..n], records, judge), items[n];
            var category := Judged(i, records, judge);
            category in before
            && Tallied(items[..n + 1], records, judge) == if i.excluded then before else before[category := before[category] + 1]
  {
    hide Judged;
    assert items[..n + 1][..n] == items[..n];
    forall c: Category ensures c in CATEGORIES {
      assert c.Reviewed? || c.Stale? || c.Failed? || c.Expired? || c.Unreviewed? || c.Untracked?;
    }
  }

  lemma RefreshStep(items: seq<OpenItem>, n: nat, records: map<int, Record>, judge: Judge, now: int, kept: seq<Refresh>)
    requires n < |items| && NumbersDistinct(items) && Distinct(Refreshes(items[..n], records, judge, now))
    requires kept == Limit(Sorted(Refreshes(items[..n], records, judge, now)), REFRESH_LIMIT)
    ensures Distinct(Refreshes(items[..n + 1], records, judge, now))
    ensures NeedsRefresh(items[n], records, judge) ==>
              && Distinct(RefreshRanks(Members(kept) + {RefreshOf(items[n], records, judge, now)}))
              && Limit(Sorted(RefreshRanks(Members(kept) + {RefreshOf(items[n], records, judge, now)})), REFRESH_LIMIT)
                 == Limit(Sorted(Refreshes(items[..n + 1], records, judge, now)), REFRESH_LIMIT)
    ensures !NeedsRefresh(items[n], records, judge) ==> Refreshes(items[..n + 1], records, judge, now) == Refreshes(items[..n], records, judge, now)
  {
    hide Judged, Sorted, Limit, Refreshes, AllRefreshes, RefreshRanks, Distinct, NumbersDistinct, RefreshRank, NeedsRefresh, RefreshOf, Members;
    PrefixIsDistinct(items, n, records, judge, now);
    PrefixIsDistinct(items, n + 1, records, judge, now);
    NextRefresh(items, n, records, judge, now);
    var all := AllRefreshes(items[..n], records, judge, now);
    if NeedsRefresh(items[n], records, judge) {
      TruncatingIsFaithful(all, RefreshOf(items[n], records, judge, now), kept);
    } else {
      assert all + {} == all;
    }
  }

  /** The loop over the open items: one category each, and the list sorted and cut after each push. */
  method Classify(items: seq<OpenItem>, records: map<int, Record>, judge: Judge, now: int)
    returns (tally: map<Category, int>, refresh: seq<Refresh>)
    requires NumbersDistinct(items)
    ensures tally == Tallied(items, records, judge)
    ensures Distinct(Refreshes(items, records, judge, now))
    ensures refresh == Limit(Sorted(Refreshes(items, records, judge, now)), REFRESH_LIMIT)
  {
    hide Judged, Sorted, Limit, Refreshes, RefreshRanks, Distinct, NumbersDistinct, RefreshOf, Members, Tallied, Zeroes;
    tally := Zeroes();
    refresh := [];
    var n := 0;
    NothingYet(records, judge, now);
    assert items[..0] == [];
    while n < |items|
      invariant 0 <= n <= |items|
      invariant tally == Tallied(items[..n], records, judge)
      invariant Distinct(Refreshes(items[..n], records, judge, now))
      invariant refresh == Limit(Sorted(Refreshes(items[..n], records, judge, now)), REFRESH_LIMIT)
    {
      var i := items[n];
      TallyStep(items, n, records, judge);
      RefreshStep(items, n, records, judge, now, refresh);
      if !i.excluded {
        var category := Judged(i, records, judge);
        tally := tally[category := tally[category] + 1];
        if !category.Reviewed? {
          refresh := Limit(Sorted(RefreshRanks(Members(refresh) + {RefreshOf(i, records, judge, now)})), REFRESH_LIMIT);
        }
      }
      n := n + 1;
    }
    assert items[..|items|] == items;
  }

  lemma NothingYet(records: map<int, Record>, judge: Judge, now: int)
    ensures Zeroes() == Tallied([], records, judge)
    ensures Distinct(Refreshes([], records, judge, now)) && Limit(Sorted(Refreshes([], records, judge, now)), REFRESH_LIMIT) == []
  {
    assert Refreshes([], records, judge, now) == map[];
  }
}

/** The review-coverage scan: pages over both storage formats, one repository at a time. */
module CoverageScan {
  import opened Ordering

  datatype Key = Key(repo: int, id: int)

  /** The `items` rows of one format; a row that is not live is a tombstone. */
  datatype Row = Row(live: bool)

  /** `repos` are the repositories either format has any row of, in whatever section. */
  datatype Tables = Tables(v1: map<Key, Row>, v2: map<Key, Row>, repos: set<int>)

  datatype Cursor = Cursor(repo: int, after: int)

  ghost predicate Consistent(t: Tables) {
    forall k | k in t.v1 || k in t.v2 :: k.repo in t.repos && k.id >= 1
  }

  /** Version 2 hides version 1. */
  predicate Live(t: Tables, k: Key) {
    if k in t.v2 then t.v2[k].live else k in t.v1 && t.v1[k].live
  }

  function LiveV2(t: Tables, c: Cursor): (ranks: map<Key, Rank>)
    ensures Distinct(ranks)
  {
    map k | k in t.v2 && t.v2[k].live && k.repo == c.repo && c.after < k.id :: Rank(k.id, 0, 0)
  }

  function LiveV1(t: Tables, c: Cursor): (ranks: map<Key, Rank>)
    ensures Distinct(ranks)
  {
    map k | k in t.v1 && t.v1[k].live && k !in t.v2 && k.repo == c.repo && c.after < k.id :: Rank(k.id, 0, 0)
  }

  function All(t: Tables, c: Cursor): (ranks: map<Key, Rank>)
    ensures Distinct(ranks)
  {
    LiveV2(t, c) + LiveV1(t, c)
  }

  /** Each format is limited before the two are merged. */
  function Merged(t: Tables, c: Cursor, limit: int): (ranks: map<Key, Rank>)
    ensures Distinct(ranks)
  {
    hide Sorted, Limit;
    map k | k in All(t, c) && (k in Limit(Sorted(LiveV2(t, c)), limit) || k in Limit(Sorted(LiveV1(t, c)), limit)) :: Rank(k.id, 0, 0)
  }

  function PageRows(t: Tables, c: Cursor, limit: int): seq<Key> { Limit(Sorted(Merged(t, c, limit)), limit) }

  function Later(t: Tables, after: Option<int>): set<int> { set r | r in t.repos && (after.Some? ==> after.value < r) }

  function NextRepository(t: Tables, after: Option<int>): Option<Cursor> {
    var later := Later(t, after);
    if later == {} then None
    else Some(Cursor(LeastOf(later), 0))
  }

  datatype Page = Page(rows: seq<Key>, next: Option<Cursor>)

  function ScanPage(t: Tables, c: Cursor, limit: int): Page {
    var rows := PageRows(t, c, limit);
    Page(rows, if rows != [] && |rows| == limit then Some(Cursor(c.repo, rows[|rows| - 1].id)) else NextRepository(t, Some(c.repo)))
  }

  // ----- a page is the next live rows of its repository -----

  lemma MergingFormatsIsExact(t: Tables, c: Cursor, limit: int)
    ensures PageRows(t, c, limit) == Limit(Sorted(All(t, c)), limit)
  {
    hide Sorted, Limit, Distinct;
    var all, merged := All(t, c), Merged(t, c, limit);
    forall k | k in Limit(Sorted(all), limit) ensures k in merged {
      Prefix(Sorted(all), limit, k);
      if k in LiveV2(t, c) {
        FirstOfAllIsFirstOfPart(LiveV2(t, c), all, limit, k);
      } else {
        FirstOfAllIsFirstOfPart(LiveV1(t, c), all, limit, k);
      }
    }
    LimitIgnoresTheRest(merged, all, limit);
  }

  lemma Prefix<T>(q: seq<T>, n: int, x: T)
    requires x in Limit(q, n)
    ensures x in q
  {
  }

  /** The live rows of the repository beyond the cursor. */
  ghost function Beyond(t: Tables, c: Cursor): set<Key> { All(t, c).Keys }

  lemma BeyondIsLive(t: Tables, c: Cursor, k: Key)
    ensures k in Beyond(t, c) <==> Live(t, k) && k.repo == c.repo && c.after < k.id
  {
  }

  ghost predicate NoRepeats(q: seq<Key>) { forall i, j | 0 <= i < j < |q| :: q[i] != q[j] }

  /** A page holds the first rows beyond its cursor, each once; its next cursor leaves exactly the rest. */
  lemma PageIsExact(t: Tables, c: Cursor, limit: int)
    requires limit >= 1
    ensures var p := ScanPage(t, c, limit);
            && NoRepeats(p.rows) && Members(p.rows) <= Beyond(t, c)
            && (p.rows != [] && |p.rows| == limit ==>
                  && p.next.Some? && p.next.value.repo == c.repo && c.after < p.next.value.after
                  && Beyond(t, p.next.value) == Beyond(t, c) - Members(p.rows) && |p.rows| >= 1)
            && (!(p.rows != [] && |p.rows| == limit) ==> Members(p.rows) == Beyond(t, c) && p.next == NextRepository(t, Some(c.repo)))
  {
    hide Sorted, NextRepository, All, PageRows, Limit, Distinct;
    var rows := PageRows(t, c, limit);
    MergingFormatsIsExact(t, c, limit);
    FirstRows(t, c, limit);
    if rows != [] && |rows| == limit {
      RestIsBeyond(t, c, limit, rows);
    }
  }

  /** The first rows beyond a cursor ascend, and are all of them if there are fewer than asked for. */
  lemma FirstRows(t: Tables, c: Cursor, limit: int)
    requires limit >= 1
    ensures var rows := Limit(Sorted(All(t, c)), limit);
            && (forall k | k in rows :: k in All(t, c))
            && (forall i, j | 0 <= i < j < |rows| :: rows[i].id < rows[j].id)
            && |rows| <= limit
            && (|rows| < limit ==> forall k | k in All(t, c) :: k in rows)
  {
    hide Sorted, All, Distinct;
    var all := All(t, c);
    var q := Sorted(all);
    var rows := Limit(q, limit);
    forall k | k in rows ensures k in all { Prefix(q, limit, k); }
    forall i, j | 0 <= i < j < |rows| ensures rows[i].id < rows[j].id {
      SortedAscends(all, i, j);
      RankOf(t, c, q[i]);
      RankOf(t, c, q[j]);
    }
    if |rows| < limit {
      assert rows == q;
    }
  }

  lemma RankOf(t: Tables, c: Cursor, k: Key)
    requires k in All(t, c)
    ensures All(t, c)[k] == Rank(k.id, 0, 0) && k.repo == c.repo && c.after < k.id
  {
  }

  lemma RestIsBeyond(t: Tables, c: Cursor, limit: int, rows: seq<Key>)
    requires limit >= 1 && rows == Limit(Sorted(All(t, c)), limit) && rows != []
    requires forall k | k in rows :: k in All(t, c)
    requires forall i, j | 0 <= i < j < |rows| :: rows[i].id < rows[j].id
    ensures var next := Cursor(c.repo, rows[|rows| - 1].id);
            c.after < next.after && Beyond(t, next) == Beyond(t, c) - Members(rows)
  {
    hide Sorted, Limit, All, Distinct;
    var last := rows[|rows| - 1];
    assert last in rows;
    var next := Cursor(c.repo, last.id);
    RankOf(t, c, last);
    forall k ensures k in Beyond(t, next) <==> k in Beyond(t, c) && k !in Members(rows) {
      NarrowerCursor(t, c, next, k);
      if k in All(t, c) {
        RankOf(t, c, k);
        if k !in rows {
          LimitKeepsTheLeast(All(t, c), limit, last, k);
        } else {
          var i :| 0 <= i < |rows| && rows[i] == k;
          assert rows[i].id <= last.id;
        }
      }
    }
  }

  lemma NarrowerCursor(t: Tables, c: Cursor, n: Cursor, k: Key)
    requires n.repo == c.repo && c.after <= n.after
    ensures k in All(t, n) <==> k in All(t, c) && n.after < k.id
  {
  }

  // ----- a whole scan -----

  ghost function RemainingRepos(t: Tables, c: Cursor): nat { |Later(t, Some(c.repo))| }

  lemma NextIsLater(t: Tables, repo: int)
    requires NextRepository(t, Some(repo)).Some?
    ensures var n := NextRepository(t, Some(repo)).value;
            && n.repo in t.repos && repo < n.repo && n.after == 0
            && (forall r | r in t.repos && repo < r :: n.repo <= r)
            && |Later(t, Some(n.repo))| < |Later(t, Some(repo))|
  {
    var n := NextRepository(t, Some(repo)).value;
    var later := Later(t, Some(repo));
    assert forall r | r in t.repos && repo < r :: r in later;
    assert Later(t, Some(n.repo)) <= later - {n.repo};
    SubsetSize(Later(t, Some(n.repo)), later - {n.repo});
  }

  /** Every page until there is no next cursor. */
  ghost function Scan(t: Tables, c: Cursor, limit: int): seq<Key>
    requires limit >= 1
    decreases RemainingRepos(t, c), |Beyond(t, c)|
  {
    hide ScanPage, Beyond;
    PageIsExact(t, c, limit);
    var p := ScanPage(t, c, limit);
    if p.next.None? then p.rows
    else
      ScanProgress(t, c, limit);
      p.rows + Scan(t, p.next.value, limit)
  }

  lemma ScanProgress(t: Tables, c: Cursor, limit: int)
    requires limit >= 1 && ScanPage(t, c, limit).next.Some?
    ensures var n := ScanPage(t, c, limit).next.value;
            RemainingRepos(t, n) < RemainingRepos(t, c)
            || (RemainingRepos(t, n) == RemainingRepos(t, c) && |Beyond(t, n)| < |Beyond(t, c)|)
  {
    hide ScanPage, Beyond, NextRepository, Later;
    PageIsExact(t, c, limit);
    var p := ScanPage(t, c, limit);
    if p.rows != [] && |p.rows| == limit {
      assert p.rows[0] in Members(p.rows);
      SubsetSize(Beyond(t, p.next.value), Beyond(t, c) - {p.rows[0]});
    } else {
      NextIsLater(t, c.repo);
    }
  }

  /** The live rows a scan from a cursor has before it: the rest of its repository and all of the
      later ones. */
  ghost predicate Before(t: Tables, c: Cursor, k: Key) {
    Live(t, k) && (c.repo < k.repo || (c.repo == k.repo && c.after < k.id))
  }

  /** Scanned to the end without writes, each live row before the cursor is folded exactly once. */
  lemma {:induction false} ScanFoldsEachOnce(t: Tables, c: Cursor, limit: int)
    requires Consistent(t) && limit >= 1
    ensures NoRepeats(Scan(t, c, limit)) && forall k :: k in Scan(t, c, limit) <==> Before(t, c, k)
    decreases RemainingRepos(t, c), |Beyond(t, c)|
  {
    hide ScanPage, Beyond, NextRepository, Live, Later, RemainingRepos;
    PageIsExact(t, c, limit);
    var p := ScanPage(t, c, limit);
    forall k ensures k in Beyond(t, c) <==> Live(t, k) && k.repo == c.repo && c.after < k.id { BeyondIsLive(t, c, k); }
    if p.next.None? {
      NoneLater(t, c);
    } else {
      var n := p.next.value;
      ScanProgress(t, c, limit);
      ScanFoldsEachOnce(t, n, limit);
      forall k ensures k in Beyond(t, n) <==> Live(t, k) && k.repo == n.repo && n.after < k.id { BeyondIsLive(t, n, k); }
      PageThenRest(t, c, limit);
      Disjoint(p.rows, Scan(t, n, limit));
    }
  }

  lemma NoneLater(t: Tables, c: Cursor)
    requires Consistent(t) && NextRepository(t, Some(c.repo)).None?
    ensures forall k | Live(t, k) :: k.repo <= c.repo
  {
    forall k | Live(t, k) ensures k.repo <= c.repo {
      assert k.repo in t.repos;
      assert k.repo !in Later(t, Some(c.repo));
    }
  }

  /** The page and what its next cursor has before it are disjoint and together are all. */
  lemma PageThenRest(t: Tables, c: Cursor, limit: int)
    requires Consistent(t) && limit >= 1 && ScanPage(t, c, limit).next.Some?
    ensures var p := ScanPage(t, c, limit);
            forall k :: (Before(t, c, k) <==> k in p.rows || Before(t, p.next.value, k)) && !(k in p.rows && Before(t, p.next.value, k))
  {
    hide ScanPage, Beyond, NextRepository, Later;
    PageIsExact(t, c, limit);
    var p := ScanPage(t, c, limit);
    var n := p.next.value;
    if !(p.rows != [] && |p.rows| == limit) {
      NextIsLater(t, c.repo);
    }
    forall k ensures (Before(t, c, k) <==> k in p.rows || Before(t, n, k)) && !(k in p.rows && Before(t, n, k)) {
      BeyondIsLive(t, c, k);
      BeyondIsLive(t, n, k);
      assert k in p.rows <==> k in Members(p.rows);
      assert Live(t, k) ==> k.repo in t.repos && k.id >= 1;
    }
  }

  lemma Disjoint(a: seq<Key>, b: seq<Key>)
    requires NoRepeats(a) && NoRepeats(b) && forall k :: !(k in a && k in b)
    ensures NoRepeats(a + b)
  {
    var q := a + b;
    forall i, j | 0 <= i < j < |q| ensures q[i] != q[j] {
      if i < |a| && |a| <= j {
        assert q[i] in a && q[j] in b;
      }
    }
  }

  /** A scan from the first repository folds every live row exactly once. */
  lemma FullScan(t: Tables, limit: int)
    requires Consistent(t) && limit >= 1 && NextRepository(t, None).Some?
    ensures var q := Scan(t, NextRepository(t, None).value, limit);
            NoRepeats(q) && forall k :: k in q <==> Live(t, k)
  {
    hide Scan;
    var c := NextRepository(t, None).value;
    ScanFoldsEachOnce(t, c, limit);
    forall k | Live(t, k) ensures Before(t, c, k) {
      assert k.repo in Later(t, None) && k.id >= 1;
    }
  }
}

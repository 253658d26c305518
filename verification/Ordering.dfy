/** Rows in the order an ORDER BY clause gives them, and the prefix a LIMIT clause keeps. */
module Ordering {
  datatype Option<+T> = None | Some(value: T)

  /** The next row of a query without an ORDER BY. */
  method AnyRow<T>(s: set<T>) returns (x: T)
    requires s != {}
    ensures x in s
  {
    x :| x in s;
  }

  /** A sort key of up to three columns, compared lexicographically. */
  datatype Rank = Rank(major: int, minor: int, last: int) {
    predicate Before(other: Rank) {
      || major < other.major
      || (major == other.major && minor < other.minor)
      || (major == other.major && minor == other.minor && last < other.last)
    }
  }

  /** No two rows tie: their sort keys are all different. */
  ghost predicate Distinct<T(!new)>(ranks: map<T, Rank>) {
    forall x, y | x in ranks && y in ranks && ranks[x] == ranks[y] :: x == y
  }

  predicate IsLeast<T(!new)>(x: T, ranks: map<T, Rank>) {
    x in ranks && forall y | y in ranks && y != x :: ranks[x].Before(ranks[y])
  }

  lemma LeastExists<T(!new)>(ranks: map<T, Rank>) returns (x: T)
    requires |ranks| > 0 && Distinct(ranks)
    ensures IsLeast(x, ranks)
    decreases |ranks|
  {
    var first :| first in ranks;
    var rest := ranks - {first};
    assert rest.Keys == ranks.Keys - {first};
    x := first;
    if |rest| > 0 {
      var z := LeastExists(rest);
      assert ranks[first] != ranks[z];
      x := if ranks[first].Before(ranks[z]) then first else z;
      forall y | y in ranks && y != x ensures ranks[x].Before(ranks[y]) {
        if y != first && y != z {
          assert y in rest && rest[z].Before(rest[y]);
        }
      }
    } else {
      assert ranks.Keys == {first};
    }
  }

  function Least<T(==,!new)>(ranks: map<T, Rank>): (x: T)
    requires |ranks| > 0 && Distinct(ranks)
    ensures IsLeast(x, ranks)
  {
    assert exists x :: IsLeast(x, ranks) by { var x := LeastExists(ranks); }
    var x :| x in ranks.Keys && IsLeast(x, ranks);
    x
  }

  /** The rows, each exactly once, least first. */
  function Sorted<T(==,!new)>(ranks: map<T, Rank>): (q: seq<T>)
    requires Distinct(ranks)
    ensures |q| == |ranks|
    ensures forall x :: x in q <==> x in ranks
    decreases |ranks|
  {
    if |ranks| == 0 then [] else
      var x := Least(ranks);
      assert (ranks - {x}).Keys == ranks.Keys - {x};
      [x] + Sorted(ranks - {x})
  }

  lemma SortedUnfolds<T(!new)>(ranks: map<T, Rank>)
    requires Distinct(ranks) && |ranks| > 0
    ensures var x := Least(ranks);
            && x in ranks && Distinct(ranks - {x}) && |ranks - {x}| == |ranks| - 1
            && Sorted(ranks) == [x] + Sorted(ranks - {x})
  {
    assert (ranks - {Least(ranks)}).Keys == ranks.Keys - {Least(ranks)};
  }

  lemma {:induction false} SortedAscends<T(!new)>(ranks: map<T, Rank>, i: int, j: int)
    requires Distinct(ranks) && 0 <= i < j < |ranks|
    ensures Sorted(ranks)[i] in ranks && Sorted(ranks)[j] in ranks
    ensures ranks[Sorted(ranks)[i]].Before(ranks[Sorted(ranks)[j]])
    decreases |ranks|
  {
    hide IsLeast, Sorted, Distinct;
    SortedUnfolds(ranks);
    var x := Least(ranks);
    var rest := ranks - {x};
    var tail := Sorted(rest);
    var y := tail[j - 1];
    assert y in tail;
    if i == 0 {
      LeastIsBefore(x, ranks, y);
    } else {
      assert tail[i - 1] in tail;
      SortedAscends(rest, i - 1, j - 1);
    }
  }

  lemma LeastIsBefore<T(!new)>(x: T, ranks: map<T, Rank>, y: T)
    requires IsLeast(x, ranks) && y in ranks && y != x
    ensures ranks[x].Before(ranks[y])
  {
  }

  function LeastOf(s: set<int>): (m: int)
    requires s != {}
    ensures m in s && forall n | n in s :: m <= n
  {
    var ranks := map n | n in s :: Rank(n, 0, 0);
    assert ranks.Keys == s;
    Least(ranks)
  }

  /** LIMIT n; SQLite reads a negative limit as no limit. */
  function Limit<T>(q: seq<T>, n: int): (page: seq<T>)
    ensures page <= q
    ensures n >= 0 ==> |page| == if n < |q| then n else |q|
  {
    if 0 <= n < |q| then q[..n] else q
  }

  /** Everything a LIMIT drops ranks after everything it keeps. */
  lemma LimitKeepsTheLeast<T(!new)>(ranks: map<T, Rank>, n: int, kept: T, dropped: T)
    requires Distinct(ranks)
    requires kept in Limit(Sorted(ranks), n)
    requires dropped in ranks && dropped !in Limit(Sorted(ranks), n)
    ensures ranks[kept].Before(ranks[dropped])
  {
    var q := Sorted(ranks);
    var page := Limit(q, n);
    var i :| 0 <= i < |page| && page[i] == kept;
    var j :| 0 <= j < |q| && q[j] == dropped;
    assert forall k | 0 <= k < |page| :: page[k] == q[k] && page[k] in page;
    assert |page| <= j;
    SortedAscends(ranks, i, j);
  }

  /** Some of the rows, with their keys. */
  ghost predicate Among<T(!new)>(part: map<T, Rank>, ranks: map<T, Rank>) {
    forall x | x in part :: x in ranks && part[x] == ranks[x]
  }

  lemma LeastUnderLimit<T(!new)>(ranks: map<T, Rank>, n: int)
    requires Distinct(ranks) && |ranks| > 0 && n > 0
    ensures var x := Least(ranks);
            Distinct(ranks - {x}) && Limit(Sorted(ranks), n) == [x] + Limit(Sorted(ranks - {x}), n - 1)
  {
    hide Least, Sorted, IsLeast, Distinct, Limit;
    SortedUnfolds(ranks);
    LimitOfCons(Least(ranks), Sorted(ranks - {Least(ranks)}), n);
  }

  lemma LimitOfCons<T>(x: T, rest: seq<T>, n: int)
    requires n > 0
    ensures Limit([x] + rest, n) == [x] + Limit(rest, n - 1)
  {
    if n < 1 + |rest| {
      assert ([x] + rest)[..n] == [x] + rest[..n - 1];
    }
  }

  lemma LeastOfPart<T(!new)>(part: map<T, Rank>, ranks: map<T, Rank>)
    requires Distinct(ranks) && Among(part, ranks) && |ranks| > 0 && Least(ranks) in part
    ensures |part| > 0 && Distinct(part) && Least(part) == Least(ranks)
    ensures Among(part - {Least(ranks)}, ranks - {Least(ranks)})
  {
  }

  lemma PartAfterLeast<T(!new)>(part: map<T, Rank>, ranks: map<T, Rank>)
    requires Distinct(ranks) && Among(part, ranks) && |ranks| > 0 && Least(ranks) !in part
    ensures Distinct(part) && Among(part, ranks - {Least(ranks)})
  {
  }

  /** A row among the first n of all rows is among the first n of any part it belongs to. */
  lemma {:induction false} FirstOfAllIsFirstOfPart<T(!new)>(part: map<T, Rank>, ranks: map<T, Rank>, n: int, x: T)
    requires Distinct(ranks) && Among(part, ranks) && Distinct(part)
    requires x in part && x in Limit(Sorted(ranks), n)
    ensures x in Limit(Sorted(part), n)
    decreases |ranks|
  {
    hide Least, Sorted, IsLeast, Distinct, Among;
    if 0 <= n {
      assert n > 0 && |ranks| > 0;
      var least := Least(ranks);
      LeastUnderLimit(ranks, n);
      assert |ranks - {least}| < |ranks| by { SortedUnfolds(ranks); }
      if least in part {
        LeastOfPart(part, ranks);
        LeastUnderLimit(part, n);
        if x != least {
          FirstOfAllIsFirstOfPart(part - {least}, ranks - {least}, n - 1, x);
        }
      } else {
        PartAfterLeast(part, ranks);
        FirstOfAllIsFirstOfPart(part, ranks - {least}, n - 1, x);
        assert Limit(Sorted(part), n - 1) <= Limit(Sorted(part), n);
      }
    }
  }

  /** Rows beyond a limit can be left out before sorting. */
  lemma {:induction false} LimitIgnoresTheRest<T(!new)>(part: map<T, Rank>, ranks: map<T, Rank>, n: int)
    requires Distinct(ranks) && Among(part, ranks) && Distinct(part)
    requires forall x | x in Limit(Sorted(ranks), n) :: x in part
    ensures Limit(Sorted(part), n) == Limit(Sorted(ranks), n)
    decreases |ranks|
  {
    hide *;
    if n < 0 || |ranks| == 0 {
      AllOfThem(part, ranks, n);
    } else if n == 0 {
      LimitNothing(Sorted(part));
      LimitNothing(Sorted(ranks));
    } else {
      LeastUnderLimit(ranks, n);
      PartCoversTheRest(part, ranks, n);
      LeastUnderLimit(part, n);
      LimitIgnoresTheRest(part - {Least(ranks)}, ranks - {Least(ranks)}, n - 1);
    }
  }

  lemma PartCoversTheRest<T(!new)>(part: map<T, Rank>, ranks: map<T, Rank>, n: int)
    requires Distinct(ranks) && Among(part, ranks) && Distinct(part) && |ranks| > 0 && n > 0
    requires forall x | x in Limit(Sorted(ranks), n) :: x in part
    ensures var least := Least(ranks);
            && least in part && |part| > 0 && Least(part) == least && |ranks - {least}| < |ranks|
            && Distinct(ranks - {least}) && Distinct(part - {least}) && Among(part - {least}, ranks - {least})
            && (forall x | x in Limit(Sorted(ranks - {least}), n - 1) :: x in part - {least})
  {
    hide Least, Sorted, IsLeast, Distinct, Among, Limit;
    LeastUnderLimit(ranks, n);
    SortedUnfolds(ranks);
    var least := Least(ranks);
    var rest := Limit(Sorted(ranks - {least}), n - 1);
    assert Limit(Sorted(ranks), n)[0] == least;
    LeastOfPart(part, ranks);
    AmongIsDistinct(part - {least}, ranks - {least});
    forall x | x in rest ensures x in part - {least} {
      assert x in [least] + rest;
      InLimit(Sorted(ranks - {least}), n - 1, x);
    }
  }

  lemma AmongIsDistinct<T(!new)>(part: map<T, Rank>, ranks: map<T, Rank>)
    requires Among(part, ranks) && Distinct(ranks)
    ensures Distinct(part)
  {
  }

  lemma LimitNothing<T>(q: seq<T>)
    ensures Limit(q, 0) == []
  {
  }

  lemma InLimit<T>(q: seq<T>, n: int, x: T)
    requires x in Limit(q, n)
    ensures x in q
  {
  }

  lemma AllOfThem<T(!new)>(part: map<T, Rank>, ranks: map<T, Rank>, n: int)
    requires Distinct(ranks) && Among(part, ranks) && (n < 0 || |ranks| == 0)
    requires forall x | x in Limit(Sorted(ranks), n) :: x in part
    ensures part == ranks
  {
    hide Sorted;
    if n < 0 {
      assert forall x | x in ranks :: x in Sorted(ranks);
    } else {
      assert ranks == map[];
    }
  }

  // ----- finite collections -----

  function Min(a: int, b: int): int { if a < b then a else b }

  function Max(a: int, b: int): int { if a < b then b else a }

  function OrElse<T>(o: Option<T>, default: T): T { if o.Some? then o.value else default }

  function GreatestOf(s: set<int>): (m: int)
    requires s != {}
    ensures m in s && forall n | n in s :: n <= m
  {
    var negated := set n | n in s :: -n;
    assert forall n | n in s :: -n in negated;
    -LeastOf(negated)
  }

  function Members<T>(q: seq<T>): set<T> { set x | x in q }

  lemma {:induction false} DistinctMembers<T>(q: seq<T>)
    requires forall i, j | 0 <= i < j < |q| :: q[i] != q[j]
    ensures |Members(q)| == |q|
    decreases |q|
  {
    if q != [] {
      DistinctMembers(q[..|q| - 1]);
      assert Members(q) == Members(q[..|q| - 1]) + {q[|q| - 1]};
      assert q[|q| - 1] !in q[..|q| - 1];
    }
  }

  lemma {:induction false} FewMembers<T>(q: seq<T>)
    ensures |Members(q)| <= |q|
    decreases |q|
  {
    if q != [] {
      FewMembers(q[..|q| - 1]);
      assert Members(q) == Members(q[..|q| - 1]) + {q[|q| - 1]};
    }
  }

  lemma SubsetSize<T>(a: set<T>, b: set<T>)
    requires a <= b
    ensures |a| <= |b|
  {
    assert b == a + (b - a);
  }

  /** A map that lost a key and gained none is smaller. */
  lemma FewerKeys<K, V>(a: map<K, V>, b: map<K, V>, gone: K)
    requires (forall k | k in b :: k in a) && gone in a && gone !in b
    ensures |b| < |a|
  {
    assert |a| == |a.Keys| && |b| == |b.Keys|;
    SubsetSize(b.Keys, a.Keys - {gone});
  }
}

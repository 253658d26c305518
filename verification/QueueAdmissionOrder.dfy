/** Who goes first: admission in order of age, told from the items' creation times and keys. */
module QueueAdmissionOrder {
  import opened Ordering
  import opened QueueAdmission
  import opened QueueAdmissionSafety

  /** Created earlier, or at the same time under a smaller key. */
  predicate Older(i: Item, j: Item) { i.createdAt < j.createdAt || (i.createdAt == j.createdAt && i.key < j.key) }

  /** Pending, due, and held by nothing: not excluded, no stale publication, and no recovery of a failed
      shard whose item a publication still owns. */
  predicate IsReady(q: Queue, i: Item, publication: bool, now: int) {
    && i in q.items && i.publication == publication && i.state.Pending? && i.nextAttemptAt <= now
    && i.key !in q.excluded && !(publication && i.key in q.stale)
    && !(i.shardRecovery && exists p | p in q.items :: p.publication && !p.state.Parked? && p.publishes == Some(i.key))
  }

  lemma ReadyExactlyWhen(q: Queue, publication: bool, now: int, i: Item)
    requires KeysDistinct(q)
    ensures i in Ready(q, publication, now) <==> IsReady(q, i, publication, now)
  {
    hide KeysDistinct;
  }

  // ----- who is counted -----

  predicate Busy(i: Item) { i.state.Dispatching? || i.state.Leased? }

  predicate BusyReview(i: Item) { Busy(i) && !i.publication }

  predicate BusyPublisher(i: Item) { Busy(i) && i.publication }

  /** Scheduled by the decision its lease was given for, or else by its own. */
  predicate BusyScheduled(i: Item) {
    BusyReview(i) && if i.leaseScheduled.Some? then i.leaseScheduled.value else i.scheduled
  }

  function BusyFor(target: string): Item -> bool { (i: Item) => BusyReview(i) && i.target == target }

  /** The positions at which such an item stands. */
  ghost function Where(items: seq<Item>, f: Item -> bool): set<nat> { set k: nat | k < |items| && f(items[k]) }

  /** The counts held against the limits are numbers of items. */
  lemma {:induction false} CountsAreCardinalities(items: seq<Item>, target: string)
    ensures ActiveReviews(items) == |Where(items, BusyReview)|
    ensures ActivePublishers(items) == |Where(items, BusyPublisher)|
    ensures ActiveScheduled(items) == |Where(items, BusyScheduled)|
    ensures ActiveTarget(items, target) == |Where(items, BusyFor(target))|
    decreases |items|
  {
    hide Where;
    if items == [] {
      NoneThere(BusyReview);
      NoneThere(BusyPublisher);
      NoneThere(BusyScheduled);
      NoneThere(BusyFor(target));
    } else {
      CountsAreCardinalities(items[..|items| - 1], target);
      OneMore(items, BusyReview);
      OneMore(items, BusyPublisher);
      OneMore(items, BusyScheduled);
      OneMore(items, BusyFor(target));
    }
  }

  lemma NoneThere(f: Item -> bool)
    ensures Where([], f) == {}
  {
  }

  lemma OneMore(items: seq<Item>, f: Item -> bool)
    requires items != []
    ensures |Where(items, f)| == |Where(items[..|items| - 1], f)| + if f(items[|items| - 1]) then 1 else 0
  {
    var n: nat := |items| - 1;
    assert Where(items, f) == Where(items[..n], f) + if f(items[n]) then {n} else {};
  }

  // ----- order of age -----

  lemma ReadyAscends(q: Queue, publication: bool, now: int)
    requires KeysDistinct(q)
    ensures forall i, j | 0 <= i < j < |Ready(q, publication, now)| :: Older(Ready(q, publication, now)[i], Ready(q, publication, now)[j])
  {
    hide Eligible, KeysDistinct, Sorted;
    ReadyIsDistinct(q, publication, now);
    var ranks := ReadyRanks(q, publication, now);
    var ready := Ready(q, publication, now);
    forall i, j | 0 <= i < j < |ready| ensures Older(ready[i], ready[j]) {
      SortedAscends(ranks, i, j);
      assert ready[i] in ready && ready[j] in ready;
      assert ready[i] in ranks && ready[j] in ranks;
    }
  }

  // ----- sequences taken from a list -----

  /** Where each element of a subsequence stands in the list. */
  lemma {:induction false} Positions(a: seq<Item>, b: seq<Item>) returns (at: seq<nat>)
    requires Subsequence(a, b)
    ensures |at| == |a|
    ensures forall x | 0 <= x < |a| :: at[x] < |b| && b[at[x]] == a[x]
    ensures forall x, y | 0 <= x < y < |a| :: at[x] < at[y]
    decreases |b|
  {
    if a == [] {
      at := [];
    } else if a[0] == b[0] && Subsequence(a[1..], b[1..]) {
      var rest := Positions(a[1..], b[1..]);
      at := [0] + seq(|rest|, x requires 0 <= x < |rest| => rest[x] + 1);
      forall x | 0 <= x < |a| ensures at[x] < |b| && b[at[x]] == a[x] {
        if x > 0 { assert a[x] == a[1..][x - 1] && b[1..][rest[x - 1]] == b[rest[x - 1] + 1]; }
      }
    } else {
      var rest := Positions(a, b[1..]);
      at := seq(|rest|, x requires 0 <= x < |rest| => rest[x] + 1);
      forall x | 0 <= x < |a| ensures at[x] < |b| && b[at[x]] == a[x] {
        assert b[1..][rest[x]] == b[rest[x] + 1];
      }
    }
  }

  // ----- reviews -----

  /** Whatever is left out unblocked stands behind everything taken. */
  lemma {:induction false} ReviewsInOrder(q: Queue, l: Limits, ready: seq<Item>, taken: seq<Item>, now: int, k: nat)
    requires k < |ready| && ready[k] !in TakeReviews(q, l, ready, taken, now)
    requires !Blocked(q, l, ready[k], TakeReviews(q, l, ready, taken, now), now)
    ensures forall x | x in TakeReviews(q, l, ready, taken, now) :: x in taken || x in ready[..k]
    decreases |ready|
  {
    hide Blocked, Slots;
    var r := TakeReviews(q, l, ready, taken, now);
    if |taken| < Slots(q, l) {
      var blocked := Blocked(q, l, ready[0], taken, now);
      var next := if blocked then taken else taken + [ready[0]];
      TakeReviewsIsSound(q, l, ready[1..], next, now);
      assert next <= r by { TakenFirst(q, l, ready[1..], next, r, now); }
      assert !blocked ==> r[|taken|] == ready[0];
      if k == 0 {
        if blocked {
          BlockedStays(q, l, ready[0], taken, r, now);
        }
      } else {
        assert ready[1..][k - 1] == ready[k];
        ReviewsInOrder(q, l, ready[1..], next, now, k - 1);
        PrefixAfterFirst(ready, k);
      }
    }
  }

  lemma TakenFirst(q: Queue, l: Limits, ready: seq<Item>, taken: seq<Item>, r: seq<Item>, now: int)
    requires ReviewsTaken(q, l, ready, taken, r, now)
    ensures taken <= r && Subsequence(r[|taken|..], ready)
  {
  }

  lemma PrefixAfterFirst(ready: seq<Item>, k: nat)
    requires 0 < k <= |ready|
    ensures ready[0] in ready[..k] && forall x | x in ready[1..][..k - 1] :: x in ready[..k]
  {
    assert ready[..k][0] == ready[0];
    forall x | x in ready[1..][..k - 1] ensures x in ready[..k] {
      var i :| 0 <= i < k - 1 && ready[1..][..k - 1][i] == x;
      assert ready[..k][i + 1] == x;
    }
  }

  /** The review would fit beside those taken: its lane has room, its owner's circuit is closed again,
      and its target has room. */
  ghost predicate Fits(q: Queue, l: Limits, i: Item, taken: seq<Item>, now: int) {
    && (i.scheduled ==> ActiveScheduled(q.items) + CountScheduled(taken) < l.scheduled)
    && (i.owner in q.circuits ==> q.circuits[i.owner] <= now)
    && ActiveTarget(q.items, i.target) + CountTarget(taken, i.target) < l.target
  }

  /** Admitted reviews fill the free slots in order of age: a ready one that would fit is left out only
      when the slots are all taken, and by older ones. */
  lemma OldestReviewsFirst(q: Queue, l: Limits, p: Publishing, now: int)
    requires KeysDistinct(q) && now >= 0 && !PausedAt(q, now)
    ensures var r := Admission(q, l, p, now).reviews;
            && (forall x, y | 0 <= x < y < |r| :: Older(r[x], r[y]))
            && (forall x | x in r :: IsReady(q, x, false, now))
            && (r != [] ==> ActiveReviews(q.items) + |r| <= l.review)
            && (forall i | IsReady(q, i, false, now) && i !in r && Fits(q, l, i, r, now) ::
                  ActiveReviews(q.items) + |r| >= l.review && forall x | x in r :: Older(x, i))
  {
    hide Ready, TakeReviews, TakePublications, Prioritize, KeysDistinct, IsReady, Subsequence;
    var ready := Ready(q, false, now);
    var r := TakeReviews(q, l, ready, [], now);
    ReadyAscends(q, false, now);
    forall i ensures i in ready <==> IsReady(q, i, false, now) { ReadyExactlyWhen(q, false, now, i); }
    TakeReviewsIsSound(q, l, ready, [], now);
    assert r[0..] == r;
    var at := Positions(r, ready);
    forall x | x in r ensures x in ready {
      var n :| 0 <= n < |r| && r[n] == x;
      assert ready[at[n]] == x;
    }
    forall i | IsReady(q, i, false, now) && i !in r && Fits(q, l, i, r, now)
      ensures ActiveReviews(q.items) + |r| >= l.review && forall x | x in r :: Older(x, i)
    {
      var k :| 0 <= k < |ready| && ready[k] == i;
      assert !Blocked(q, l, i, r, now);
      ReviewsInOrder(q, l, ready, [], now, k);
      forall x | x in r ensures Older(x, i) {
        var j :| 0 <= j < k && ready[..k][j] == x;
      }
    }
  }

  // ----- publications -----

  lemma {:induction false} PublicationsInOrder(active: nat, l: Limits, p: Publishing, ready: seq<Item>, taken: seq<Item>, k: nat)
    requires k < |ready| && ready[k] !in TakePublications(active, l, p, ready, taken) && !HeldBack(ready[k], p)
    requires !Duplicate(ready[k], p, TakePublications(active, l, p, ready, taken))
    ensures forall x | x in TakePublications(active, l, p, ready, taken) :: x in taken || x in ready[..k]
    decreases |ready|
  {
    hide HeldBack, Duplicate;
    var r := TakePublications(active, l, p, ready, taken);
    if !HeldBack(ready[0], p) && active + |taken| >= l.publication {
    } else {
      var next := if HeldBack(ready[0], p) || Duplicate(ready[0], p, taken) then taken else taken + [ready[0]];
      TakePublicationsIsSound(active, l, p, ready[1..], next);
      assert r == TakePublications(active, l, p, ready[1..], next);
      assert next <= r by { PublishedFirst(active, l, p, ready[1..], next, r); }
      assert next != taken ==> r[|taken|] == ready[0];
      if k == 0 {
        if Duplicate(ready[0], p, taken) {
          DuplicateStays(ready[0], p, taken, r);
        }
      } else {
        assert ready[1..][k - 1] == ready[k];
        PublicationsInOrder(active, l, p, ready[1..], next, k - 1);
        PrefixAfterFirst(ready, k);
      }
    }
  }

  lemma PublishedFirst(active: nat, l: Limits, p: Publishing, ready: seq<Item>, taken: seq<Item>, r: seq<Item>)
    requires PublicationsTaken(active, l, p, ready, taken, r)
    ensures taken <= r && Subsequence(r[|taken|..], ready)
  {
  }

  /** The ready publications among the fresh keys that are older. */
  ghost function OlderFresh(q: Queue, p: Publishing, now: int, i: Item): set<Item> {
    set j | j in q.items && IsReady(q, j, true, now) && j.key in p.freshKeys && Older(j, i)
  }

  /** Both fresh and historical publications wait, and a reserve is set. */
  ghost predicate Prioritizing(q: Queue, p: Publishing, now: int) {
    && p.reserve > 0
    && (exists i :: IsReady(q, i, true, now) && i.key in p.freshKeys)
    && (exists i :: IsReady(q, i, true, now) && i.key !in p.freshKeys)
  }

  /** The reserve of oldest fresh publications, then the historical ones, then the other fresh ones. */
  ghost function Class(q: Queue, p: Publishing, now: int, i: Item): int {
    if !Prioritizing(q, p, now) then 0
    else if i.key !in p.freshKeys then 1
    else if |OlderFresh(q, p, now, i)| < p.reserve then 0
    else 2
  }

  ghost predicate Before(q: Queue, p: Publishing, now: int, i: Item, j: Item) {
    Class(q, p, now, i) < Class(q, p, now, j) || (Class(q, p, now, i) == Class(q, p, now, j) && Older(i, j))
  }

  lemma {:induction false} SplitMembers(items: seq<Item>, keys: set<int>)
    ensures forall i :: i in Fresh(items, keys) <==> i in items && i.key in keys
    ensures forall i :: i in Historical(items, keys) <==> i in items && i.key !in keys
    decreases |items|
  {
    if items != [] {
      SplitMembers(items[..|items| - 1], keys);
      assert items == items[..|items| - 1] + [items[|items| - 1]];
    }
  }

  lemma SubsequenceAscends(a: seq<Item>, b: seq<Item>)
    requires Subsequence(a, b) && forall x, y | 0 <= x < y < |b| :: Older(b[x], b[y])
    ensures forall x, y | 0 <= x < y < |a| :: Older(a[x], a[y])
  {
    hide Subsequence;
    var at := Positions(a, b);
  }

  /** The n-th of the ascending fresh ones has n older. */
  lemma FreshRank(q: Queue, p: Publishing, now: int, recent: seq<Item>, n: nat)
    requires n < |recent| && forall x, y | 0 <= x < y < |recent| :: Older(recent[x], recent[y])
    requires forall i :: i in recent <==> IsReady(q, i, true, now) && i.key in p.freshKeys
    ensures |OlderFresh(q, p, now, recent[n])| == n
  {
    hide IsReady;
    var first := recent[..n];
    forall x, y | 0 <= x < y < n ensures first[x] != first[y] { assert Older(recent[x], recent[y]); }
    DistinctMembers(first);
    forall i ensures i in OlderFresh(q, p, now, recent[n]) <==> i in first {
      if i in OlderFresh(q, p, now, recent[n]) {
        assert i in recent;
        var x :| 0 <= x < |recent| && recent[x] == i;
        assert x < n;
        assert first[x] == i;
      }
      if i in first {
        var x :| 0 <= x < n && first[x] == i;
        assert recent[x] == i && i in recent && IsReady(q, i, true, now);
        ReadyIsQueued(q, i, now);
      }
    }
    assert OlderFresh(q, p, now, recent[n]) == set i | i in first;
  }

  lemma ReadyIsQueued(q: Queue, i: Item, now: int)
    requires IsReady(q, i, true, now)
    ensures i in q.items
  {
  }

  /** The prioritized list is the ready publications in this order. */
  lemma PrioritizedAscends(q: Queue, p: Publishing, now: int)
    requires KeysDistinct(q)
    ensures var r := Prioritize(Ready(q, true, now), p.freshKeys, p.reserve);
            && (forall x, y | 0 <= x < y < |r| :: Before(q, p, now, r[x], r[y]))
            && (forall i :: i in r <==> IsReady(q, i, true, now))
  {
    hide Ready, KeysDistinct, IsReady, Subsequence, Fresh, Historical;
    var ready := Ready(q, true, now);
    forall i ensures i in ready <==> IsReady(q, i, true, now) { ReadyExactlyWhen(q, true, now, i); }
    var recent, historical := Fresh(ready, p.freshKeys), Historical(ready, p.freshKeys);
    ReadyAscends(q, true, now);
    SplitMembers(ready, p.freshKeys);
    SplitKeepsOrder(ready, p.freshKeys);
    SubsequenceAscends(recent, ready);
    SubsequenceAscends(historical, ready);
    forall i ensures i in Prioritize(ready, p.freshKeys, p.reserve) <==> IsReady(q, i, true, now) {
      PrioritizeKeepsItems(ready, p.freshKeys, p.reserve, i);
    }
    PrioritizingExactlyWhen(q, p, now, ready, recent, historical);
    if Prioritizing(q, p, now) {
      PartsAscend(q, p, now, recent, historical);
    }
  }

  lemma PrioritizingExactlyWhen(q: Queue, p: Publishing, now: int, ready: seq<Item>, recent: seq<Item>, historical: seq<Item>)
    requires forall i :: i in ready <==> IsReady(q, i, true, now)
    requires forall i :: i in recent <==> i in ready && i.key in p.freshKeys
    requires forall i :: i in historical <==> i in ready && i.key !in p.freshKeys
    ensures Prioritizing(q, p, now) <==> !(p.reserve == 0 || p.freshKeys == {} || recent == [] || historical == [])
  {
    hide IsReady;
    if recent != [] { assert recent[0] in recent; }
    if historical != [] { assert historical[0] in historical; }
  }

  lemma PartsAscend(q: Queue, p: Publishing, now: int, recent: seq<Item>, historical: seq<Item>)
    requires Prioritizing(q, p, now)
    requires forall x, y | 0 <= x < y < |recent| :: Older(recent[x], recent[y])
    requires forall x, y | 0 <= x < y < |historical| :: Older(historical[x], historical[y])
    requires forall i :: i in recent <==> IsReady(q, i, true, now) && i.key in p.freshKeys
    requires forall i | i in historical :: i.key !in p.freshKeys
    ensures var reserved := Limit(recent, p.reserve);
            var r := reserved + historical + recent[|reserved|..];
            forall x, y | 0 <= x < y < |r| :: Before(q, p, now, r[x], r[y])
  {
    hide IsReady, OlderFresh, Prioritizing;
    var reserved := Limit(recent, p.reserve);
    var n, h := |reserved|, |historical|;
    var r := reserved + historical + recent[n..];
    forall x | 0 <= x < |recent| ensures Class(q, p, now, recent[x]) == if x < n then 0 else 2 {
      assert recent[x] in recent;
      FreshRank(q, p, now, recent, x);
    }
    forall x | 0 <= x < h ensures Class(q, p, now, historical[x]) == 1 { assert historical[x] in historical; }
    forall x | 0 <= x < |r| ensures r[x] == if x < n then recent[x] else if x < n + h then historical[x - n] else recent[x - h] {}
  }

  /** Held back by a batch: it is for one, neither a terminal finalization nor a direct receipt. */
  ghost predicate WaitsForBatch(i: Item, p: Publishing) { p.blocked && i.publication && !i.terminalFinal && !i.directLifecycle }

  ghost predicate RecordTaken(i: Item, p: Publishing, taken: seq<Item>) {
    p.unique && exists j | j in taken :: j.target == i.target && j.number == i.number
  }

  /** Admitted publications are in order, by class and then by age, one of a record where records must be
      distinct, and none that waits for a batch; a ready one that neither reason holds back is left out
      only when no publisher is free, and by those before it. */
  lemma OldestPublicationsFirst(q: Queue, l: Limits, p: Publishing, now: int)
    requires KeysDistinct(q) && !PausedAt(q, now)
    ensures var r := Admission(q, l, p, now).publications;
            && (forall x, y | 0 <= x < y < |r| :: Before(q, p, now, r[x], r[y]))
            && (forall x | x in r :: IsReady(q, x, true, now) && !WaitsForBatch(x, p))
            && (p.unique ==> forall x, y | 0 <= x < y < |r| :: !(r[x].target == r[y].target && r[x].number == r[y].number))
            && (r != [] ==> ActivePublishers(q.items) + |r| <= l.publication)
            && (forall i | IsReady(q, i, true, now) && i !in r && !WaitsForBatch(i, p) && !RecordTaken(i, p, r) ::
                  ActivePublishers(q.items) + |r| >= l.publication && forall x | x in r :: Before(q, p, now, x, i))
  {
    hide Ready, TakeReviews, TakePublications, Prioritize, KeysDistinct, IsReady, Before, Subsequence, ActivePublishers;
    var ready := Prioritize(Ready(q, true, now), p.freshKeys, p.reserve);
    var active := ActivePublishers(q.items);
    var r := TakePublications(active, l, p, ready, []);
    PrioritizedAscends(q, p, now);
    TakePublicationsIsSound(active, l, p, ready, []);
    assert r[0..] == r;
    var at := Positions(r, ready);
    forall x | x in r ensures x in ready && !WaitsForBatch(x, p) {
      var n :| 0 <= n < |r| && r[n] == x;
      assert ready[at[n]] == x;
      assert !HeldBack(x, p);
    }
    forall i | IsReady(q, i, true, now) && i !in r && !WaitsForBatch(i, p) && !RecordTaken(i, p, r)
      ensures active + |r| >= l.publication && forall x | x in r :: Before(q, p, now, x, i)
    {
      var k :| 0 <= k < |ready| && ready[k] == i;
      assert !HeldBack(i, p) && !Duplicate(i, p, r);
      PublicationsInOrder(active, l, p, ready, [], k);
      forall x | x in r ensures Before(q, p, now, x, i) {
        var j :| 0 <= j < k && ready[..k][j] == x;
      }
    }
  }
}

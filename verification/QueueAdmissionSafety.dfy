/** Admission stays within every bound and leaves nothing out without a reason, and sleeping until
    the next wake misses no admission. */
module QueueAdmissionSafety {
  import opened Ordering
  import opened QueueAdmission

  /** `a` is `b` with some elements left out. */
  predicate Subsequence(a: seq<Item>, b: seq<Item>)
    decreases |b|
  {
    if a == [] then true
    else if b == [] then false
    else (a[0] == b[0] && Subsequence(a[1..], b[1..])) || Subsequence(a, b[1..])
  }

  // ----- reviews -----

  lemma {:induction false} CountsGrow(taken: seq<Item>, r: seq<Item>, target: string)
    requires taken <= r
    ensures CountScheduled(taken) <= CountScheduled(r) && CountTarget(taken, target) <= CountTarget(r, target)
    decreases |r|
  {
    if |taken| < |r| {
      assert taken <= r[..|r| - 1];
      CountsGrow(taken, r[..|r| - 1], target);
    } else {
      assert taken == r;
    }
  }

  lemma BlockedStays(q: Queue, l: Limits, i: Item, taken: seq<Item>, r: seq<Item>, now: int)
    requires taken <= r && Blocked(q, l, i, taken, now)
    ensures Blocked(q, l, i, r, now)
  {
    CountsGrow(taken, r, i.target);
  }

  lemma CountsAppend(taken: seq<Item>, i: Item, target: string)
    ensures CountScheduled(taken + [i]) == CountScheduled(taken) + (if i.scheduled then 1 else 0)
    ensures CountTarget(taken + [i], target) == CountTarget(taken, target) + (if i.target == target then 1 else 0)
  {
    assert (taken + [i])[..|taken|] == taken;
  }

  /** What taking reviews from a ready list guarantees about the result. */
  ghost predicate ReviewsTaken(q: Queue, l: Limits, ready: seq<Item>, taken: seq<Item>, r: seq<Item>, now: int) {
    && taken <= r && Subsequence(r[|taken|..], ready)
    && |r| <= Max(|taken|, Slots(q, l))
    && ActiveScheduled(q.items) + CountScheduled(r) <= Max(l.scheduled, ActiveScheduled(q.items) + CountScheduled(taken))
    && (forall t :: ActiveTarget(q.items, t) + CountTarget(r, t) <= Max(l.target, ActiveTarget(q.items, t) + CountTarget(taken, t)))
    && (forall i | i in r[|taken|..] :: CircuitAt(q, i.owner, now) <= now)
    && (forall i | i in ready :: i in r || |r| >= Slots(q, l) || Blocked(q, l, i, r, now))
  }

  lemma SkipKeepsTaken(q: Queue, l: Limits, ready: seq<Item>, taken: seq<Item>, r: seq<Item>, now: int)
    requires ready != [] && ReviewsTaken(q, l, ready[1..], taken, r, now) && Blocked(q, l, ready[0], taken, now)
    ensures ReviewsTaken(q, l, ready, taken, r, now)
  {
    hide CountScheduled, CountTarget, ActiveScheduled, ActiveTarget, CircuitAt, Slots, Blocked;
    BlockedStays(q, l, ready[0], taken, r, now);
    SkippedFirst(r[|taken|..], ready);
    assert forall j | j in ready :: j == ready[0] || j in ready[1..];
    hide Subsequence;
  }

  lemma AddKeepsTaken(q: Queue, l: Limits, ready: seq<Item>, taken: seq<Item>, r: seq<Item>, now: int)
    requires ready != [] && ReviewsTaken(q, l, ready[1..], taken + [ready[0]], r, now)
    requires !Blocked(q, l, ready[0], taken, now) && |taken| < Slots(q, l)
    ensures ReviewsTaken(q, l, ready, taken, r, now)
  {
    hide ActiveScheduled, ActiveTarget, Slots, CountScheduled, CountTarget, CircuitAt;
    var i := ready[0];
    var next := taken + [i];
    forall t ensures ActiveTarget(q.items, t) + CountTarget(r, t) <= Max(l.target, ActiveTarget(q.items, t) + CountTarget(taken, t)) {
      CountsAppend(taken, i, t);
    }
    CountsAppend(taken, i, i.target);
    assert r[|taken|] == next[|taken|] == i;
    assert r[|taken|..] == [i] + r[|next|..];
    assert r[|taken|..][1..] == r[|next|..];
    hide Blocked;
    assert forall j | j in ready :: j == i || j in ready[1..];
    assert i in r;
  }

  lemma {:induction false} TakeReviewsIsSound(q: Queue, l: Limits, ready: seq<Item>, taken: seq<Item>, now: int)
    ensures ReviewsTaken(q, l, ready, taken, TakeReviews(q, l, ready, taken, now), now)
    decreases |ready|
  {
    hide ReviewsTaken, Blocked, Slots;
    if ready == [] || |taken| >= Slots(q, l) {
      NothingTaken(q, l, ready, taken, now);
    } else if Blocked(q, l, ready[0], taken, now) {
      TakeReviewsIsSound(q, l, ready[1..], taken, now);
      SkipKeepsTaken(q, l, ready, taken, TakeReviews(q, l, ready, taken, now), now);
    } else {
      TakeReviewsIsSound(q, l, ready[1..], taken + [ready[0]], now);
      AddKeepsTaken(q, l, ready, taken, TakeReviews(q, l, ready, taken, now), now);
    }
  }

  lemma NothingTaken(q: Queue, l: Limits, ready: seq<Item>, taken: seq<Item>, now: int)
    requires ready == [] || |taken| >= Slots(q, l)
    ensures ReviewsTaken(q, l, ready, taken, taken, now)
  {
    assert taken[|taken|..] == [];
  }

  lemma SkippedFirst(a: seq<Item>, b: seq<Item>)
    requires b != [] && Subsequence(a, b[1..])
    ensures Subsequence(a, b)
  {
  }

  // ----- publications -----

  /** What taking publications guarantees: the cap, one per record, and a reason for what is left. */
  ghost predicate PublicationsTaken(active: nat, l: Limits, p: Publishing, ready: seq<Item>, taken: seq<Item>, r: seq<Item>) {
    && taken <= r && Subsequence(r[|taken|..], ready)
    && active + |r| <= Max(l.publication, active + |taken|)
    && (forall i | i in r[|taken|..] :: !HeldBack(i, p))
    && (p.unique && RecordsDistinct(taken) ==> RecordsDistinct(r))
    && (forall i | i in ready :: i in r || HeldBack(i, p) || active + |r| >= l.publication || Duplicate(i, p, r))
  }

  ghost predicate RecordsDistinct(q: seq<Item>) {
    forall i, j | 0 <= i < j < |q| :: !SameRecord(q[i], q[j])
  }

  lemma DuplicateStays(i: Item, p: Publishing, taken: seq<Item>, r: seq<Item>)
    requires taken <= r && Duplicate(i, p, taken)
    ensures Duplicate(i, p, r)
  {
    var j :| j in taken && SameRecord(i, j);
    assert j in r;
  }

  lemma {:induction false} TakePublicationsIsSound(active: nat, l: Limits, p: Publishing, ready: seq<Item>, taken: seq<Item>)
    ensures PublicationsTaken(active, l, p, ready, taken, TakePublications(active, l, p, ready, taken))
    decreases |ready|
  {
    hide HeldBack, SameRecord;
    var r := TakePublications(active, l, p, ready, taken);
    if ready == [] {
      assert r[|taken|..] == [];
    } else {
      var i := ready[0];
      assert forall j | j in ready :: j == i || j in ready[1..];
      if HeldBack(i, p) {
        TakePublicationsIsSound(active, l, p, ready[1..], taken);
        SkippedFirst(r[|taken|..], ready);
      } else if active + |taken| >= l.publication {
        assert r[|taken|..] == [];
      } else if Duplicate(i, p, taken) {
        TakePublicationsIsSound(active, l, p, ready[1..], taken);
        SkippedFirst(r[|taken|..], ready);
        DuplicateStays(i, p, taken, r);
      } else {
        var next := taken + [i];
        TakePublicationsIsSound(active, l, p, ready[1..], next);
        NewRecord(taken, i, p);
        assert r[|taken|] == i;
        assert r[|taken|..] == [i] + r[|next|..];
        assert r[|taken|..][1..] == r[|next|..];
      }
    }
  }

  lemma NewRecord(taken: seq<Item>, i: Item, p: Publishing)
    requires !Duplicate(i, p, taken)
    ensures p.unique && RecordsDistinct(taken) ==> RecordsDistinct(taken + [i])
  {
    if p.unique {
      forall k | 0 <= k < |taken| ensures !SameRecord(taken[k], i) {
        assert taken[k] in taken && !SameRecord(i, taken[k]);
      }
    }
  }

  lemma {:induction false} SplitKeepsAll(items: seq<Item>, keys: set<int>)
    ensures multiset(Fresh(items, keys)) + multiset(Historical(items, keys)) == multiset(items)
    ensures forall i | i in Fresh(items, keys) :: i.key in keys
    ensures forall i | i in Historical(items, keys) :: i.key !in keys
    decreases |items|
  {
    if items != [] {
      var init, last := items[..|items| - 1], items[|items| - 1];
      SplitKeepsAll(init, keys);
      assert items == init + [last];
    }
  }

  lemma {:induction false} SplitKeepsOrder(items: seq<Item>, keys: set<int>)
    ensures Subsequence(Fresh(items, keys), items) && Subsequence(Historical(items, keys), items)
    decreases |items|
  {
    hide Subsequence;
    if items != [] {
      var init, last := items[..|items| - 1], items[|items| - 1];
      SplitKeepsOrder(init, keys);
      assert items == init + [last];
      AppendSubsequence(Fresh(init, keys), init, last);
      AppendSubsequence(Historical(init, keys), init, last);
      assert Fresh(items, keys) == Fresh(init, keys) || Fresh(items, keys) == Fresh(init, keys) + [last];
      assert Historical(items, keys) == Historical(init, keys) || Historical(items, keys) == Historical(init, keys) + [last];
    } else {
      NoneOfNone();
    }
  }

  lemma NoneOfNone()
    ensures Subsequence([], [])
  {
  }

  lemma {:induction false} AppendSubsequence(a: seq<Item>, b: seq<Item>, x: Item)
    requires Subsequence(a, b)
    ensures Subsequence(a + [x], b + [x]) && Subsequence(a, b + [x])
    decreases |b|
  {
    if b == [] {
      assert (a + [x])[1..] == [];
    } else {
      assert (b + [x])[1..] == b[1..] + [x];
      if a == [] {
        assert [] + [x] == [x];
        AppendSubsequence([], b[1..], x);
      } else {
        assert (a + [x])[1..] == a[1..] + [x];
        if a[0] == b[0] && Subsequence(a[1..], b[1..]) {
          AppendSubsequence(a[1..], b[1..], x);
        } else {
          AppendSubsequence(a, b[1..], x);
        }
      }
    }
  }

  /** Prioritizing loses and repeats nothing, keeps the order among fresh and among historical
      items, and where both kinds wait starts with the reserved fresh ones. */
  lemma PrioritizeIsFair(items: seq<Item>, keys: set<int>, reserve: nat)
    ensures var r := Prioritize(items, keys, reserve);
            var recent, historical := Fresh(items, keys), Historical(items, keys);
            && multiset(r) == multiset(items)
            && Subsequence(recent, items) && Subsequence(historical, items)
            && (reserve > 0 && recent != [] && historical != [] ==> Limit(recent, reserve) + historical <= r)
  {
    hide Subsequence, Fresh, Historical, Limit;
    SplitKeepsAll(items, keys);
    SplitKeepsOrder(items, keys);
    var recent, historical := Fresh(items, keys), Historical(items, keys);
    NoKeysNoFresh(recent, keys);
    if reserve > 0 && recent != [] && historical != [] {
      Rotated(Limit(recent, reserve), historical, recent[|Limit(recent, reserve)|..]);
      assert recent == Limit(recent, reserve) + recent[|Limit(recent, reserve)|..] by { PrefixSplits(Limit(recent, reserve), recent); }
    }
  }

  lemma NoKeysNoFresh(recent: seq<Item>, keys: set<int>)
    requires forall i | i in recent :: i.key in keys
    ensures keys == {} ==> recent == []
  {
    if recent != [] { assert recent[0] in recent; }
  }

  lemma PrefixSplits(a: seq<Item>, b: seq<Item>)
    requires a <= b
    ensures b == a + b[|a|..]
  {
  }

  lemma Rotated(a: seq<Item>, b: seq<Item>, c: seq<Item>)
    ensures multiset(a + b + c) == multiset(a + c) + multiset(b)
    ensures a + b <= a + b + c
  {
  }

  // ----- the whole admission -----

  lemma PrioritizeKeepsItems(items: seq<Item>, keys: set<int>, reserve: nat, i: Item)
    ensures i in Prioritize(items, keys, reserve) <==> i in items
  {
    PrioritizeIsFair(items, keys, reserve);
    var r := Prioritize(items, keys, reserve);
    hide Prioritize;
    assert i in r <==> i in multiset(r);
    assert i in items <==> i in multiset(items);
  }

  /** Within every bound, in order, and work conserving: each ready item that is left out is blocked
      in the final state. */
  lemma AdmissionIsSound(q: Queue, l: Limits, p: Publishing, now: int)
    requires KeysDistinct(q) && !PausedAt(q, now)
    ensures var a := Admission(q, l, p, now);
            && ReviewsTaken(q, l, Ready(q, false, now), [], a.reviews, now)
            && PublicationsTaken(ActivePublishers(q.items), l, p, Prioritize(Ready(q, true, now), p.freshKeys, p.reserve), [], a.publications)
            && (forall i | i in Ready(q, true, now) ::
                  i in a.publications || HeldBack(i, p) || ActivePublishers(q.items) + |a.publications| >= l.publication
                  || Duplicate(i, p, a.publications))
  {
    hide Ready, ReviewsTaken, TakeReviews, TakePublications, Prioritize, ActivePublishers, KeysDistinct, Duplicate;
    var ready := Prioritize(Ready(q, true, now), p.freshKeys, p.reserve);
    TakeReviewsIsSound(q, l, Ready(q, false, now), [], now);
    TakePublicationsIsSound(ActivePublishers(q.items), l, p, ready, []);
    forall i | i in Ready(q, true, now) ensures i in ready {
      PrioritizeKeepsItems(Ready(q, true, now), p.freshKeys, p.reserve, i);
    }
  }

  lemma {:induction false} SubsequenceIn(a: seq<Item>, b: seq<Item>, i: Item)
    requires Subsequence(a, b) && i in a
    ensures i in b
    decreases |b|
  {
    if a[0] == b[0] && Subsequence(a[1..], b[1..]) {
      if i != a[0] {
        assert i in a[1..];
        SubsequenceIn(a[1..], b[1..], i);
      }
    } else {
      SubsequenceIn(a, b[1..], i);
    }
  }

  // ----- the next wake -----

  /** Awake in time: whenever something is active or waiting to be admitted there is a next wake, a
      second away at least, and by then no live lease has been passed by more than that second. */
  lemma NextWakeIsBounded(q: Queue, l: Limits, now: int, blockedUntil: Option<int>, gate: Option<int>, i: Item)
    requires i in q.items && (i.Active() || Eligible(q, i)) && now >= 0
    ensures var w := NextWake(q, l, now, blockedUntil, gate);
            && w.Some? && w.value >= now + WAKE_MS
            && (i.Active() && Lease(i, l) > now ==> w.value <= Max(now + WAKE_MS, Lease(i, l)))
  {
    hide ItemAt, TerminalAt, Eligible, Lease;
    if forall j | j in q.items :: !Overdue(j, l, now) {
      var wakes := Wakes(q, l, now, blockedUntil, gate);
      if i.Active() {
        assert !Overdue(i, l, now);
        assert LiveLease(i, l, i.publication, now);
        assert Lease(i, l) in ReviewWakes(q, l, now) || Lease(i, l) in PublisherWakes(q, l, now);
        assert Lease(i, l) in wakes;
      } else {
        assert ItemAt(q, l, i, now, blockedUntil, gate) in wakes;
      }
    }
  }

  /** An eligible item cannot be looked at for admission before its own moment. */
  lemma WakeIsNotAfterItem(q: Queue, l: Limits, now: int, blockedUntil: Option<int>, gate: Option<int>, i: Item, t: int)
    requires i in q.items && Eligible(q, i) && now + WAKE_MS <= t
    requires NextWake(q, l, now, blockedUntil, gate).Some? ==> t < NextWake(q, l, now, blockedUntil, gate).value
    ensures t < ItemAt(q, l, i, now, blockedUntil, gate)
  {
    hide ItemAt, TerminalAt, Eligible, Overdue, ReviewWakes, PublisherWakes;
    if forall j | j in q.items :: !Overdue(j, l, now) {
      assert ItemAt(q, l, i, now, blockedUntil, gate) in Wakes(q, l, now, blockedUntil, gate);
    }
  }

  lemma ReviewIsBlocked(q: Queue, l: Limits, i: Item, now: int, t: int)
    requires !i.publication && now <= t < ReviewAt(q, l, i, now, None)
    ensures i.nextAttemptAt > t || ActiveReviews(q.items) >= l.review || Blocked(q, l, i, [], t)
  {
    hide ActiveReviews, ActiveScheduled, ActiveTarget, ReviewWakes, ScheduledWakes, TargetWakes, LeastOf;
    if i.nextAttemptAt <= t && CircuitAt(q, i.owner, now) <= t {
      var scheduled := WhenFull(ActiveScheduled(q.items) >= l.scheduled, ScheduledWakes(q, l, now));
      var capacity := CapacityWake(q, l, i.target, now);
      assert t < OrElse(capacity, i.nextAttemptAt) || (i.scheduled && t < OrElse(scheduled, i.nextAttemptAt));
    }
  }

  /** Nothing is missed: while the tables stay as they are and no admission gate is set, no review is
      admitted between a second from now and the next wake. */
  lemma NoReviewIsMissed(q: Queue, l: Limits, p: Publishing, now: int, blockedUntil: Option<int>, t: int)
    requires KeysDistinct(q) && now + WAKE_MS <= t
    requires NextWake(q, l, now, blockedUntil, None).Some? ==> t < NextWake(q, l, now, blockedUntil, None).value
    ensures Admission(q, l, p, t).reviews == []
  {
    hide KeysDistinct, Ready, TakePublications, Prioritize, ActiveReviews, ActiveScheduled, ActiveTarget, NextWake, ReviewAt,
      PublicationAt, Eligible, Blocked;
    if !PausedAt(q, t) {
      forall i | i in Ready(q, false, t) ensures 0 >= Slots(q, l) || Blocked(q, l, i, [], t) {
        WakeIsNotAfterItem(q, l, now, blockedUntil, None, i, t);
        if PausedAt(q, now) {
          assert false;
        }
        ReviewIsBlocked(q, l, i, now, t);
      }
      AllBlocked(q, l, Ready(q, false, t), t);
    }
  }

  lemma {:induction false} AllBlocked(q: Queue, l: Limits, ready: seq<Item>, t: int)
    requires forall i | i in ready :: 0 >= Slots(q, l) || Blocked(q, l, i, [], t)
    ensures TakeReviews(q, l, ready, [], t) == []
    decreases |ready|
  {
    hide Blocked, Slots;
    if ready != [] {
      AllBlocked(q, l, ready[1..], t);
    }
  }

  lemma PublicationIsBlocked(q: Queue, l: Limits, i: Item, now: int, t: int, blockedUntil: Option<int>)
    requires i.publication && now <= t < PublicationAt(q, l, i, now, blockedUntil)
    ensures i.nextAttemptAt > t || ActivePublishers(q.items) >= l.publication
         || (blockedUntil.Some? && blockedUntil.value > t)
  {
    hide ActivePublishers, ReviewWakes, PublisherWakes, LeastOf;
  }

  /** A publication admitted before the next wake is one kind only: batches were blocked until later
      than that, and it is not for a batch, so the block never applied to it. */
  lemma OnlyUnbatchedPublicationsAreMissed(q: Queue, l: Limits, p: Publishing, now: int, blockedUntil: Option<int>, gate: Option<int>,
                                           t: int, i: Item)
    requires KeysDistinct(q) && now + WAKE_MS <= t && i in Admission(q, l, p, t).publications
    requires NextWake(q, l, now, blockedUntil, gate).Some? ==> t < NextWake(q, l, now, blockedUntil, gate).value
    requires blockedUntil.Some? && blockedUntil.value > t ==> p.blocked
    ensures blockedUntil.Some? && blockedUntil.value > t && !i.Batchable()
  {
    hide KeysDistinct, Ready, TakeReviews, TakePublications, Prioritize, ActivePublishers, NextWake, ReviewAt, PublicationAt,
      Eligible, Subsequence, ReviewsTaken;
    AdmissionIsSound(q, l, p, t);
    var a := Admission(q, l, p, t);
    var ready := Prioritize(Ready(q, true, t), p.freshKeys, p.reserve);
    assert a.publications[0..] == a.publications;
    SubsequenceIn(a.publications, ready, i);
    PrioritizeKeepsItems(Ready(q, true, t), p.freshKeys, p.reserve, i);
    WakeIsNotAfterItem(q, l, now, blockedUntil, gate, i, t);
    if !PausedAt(q, now) {
      PublicationIsBlocked(q, l, i, now, t, blockedUntil);
      assert |a.publications| >= 1;
    }
  }

  /** A publication that is due by `t` and that no batch block holds back. */
  predicate Unbatched(q: Queue, i: Item, t: int) {
    i.publication && !i.Batchable() && Eligible(q, i) && i.nextAttemptAt <= t
  }

  /** Some publication is missed before the next wake exactly when batches are blocked beyond that
      moment, dispatch is not paused, a publisher is free, and one that is not for a batch is due. */
  lemma PublicationsAreMissedExactlyWhen(q: Queue, l: Limits, p: Publishing, now: int, blockedUntil: Option<int>, gate: Option<int>,
                                         t: int)
    requires KeysDistinct(q) && now + WAKE_MS <= t
    requires NextWake(q, l, now, blockedUntil, gate).Some? ==> t < NextWake(q, l, now, blockedUntil, gate).value
    requires blockedUntil.Some? && blockedUntil.value > t ==> p.blocked
    ensures Admission(q, l, p, t).publications != [] <==>
              && blockedUntil.Some? && blockedUntil.value > t
              && !PausedAt(q, t)
              && ActivePublishers(q.items) < l.publication
              && exists i | i in q.items :: Unbatched(q, i, t)
  {
    hide KeysDistinct, Ready, TakeReviews, TakePublications, Prioritize, ActivePublishers, NextWake, Eligible, ReviewsTaken;
    var a := Admission(q, l, p, t);
    if !PausedAt(q, t) {
      AdmissionIsSound(q, l, p, t);
      if a.publications != [] {
        var i := a.publications[0];
        assert i in a.publications;
        OnlyUnbatchedPublicationsAreMissed(q, l, p, now, blockedUntil, gate, t, i);
        AdmittedAreReady(q, l, p, t, i);
        assert Unbatched(q, i, t);
      }
      if i :| i in q.items && Unbatched(q, i, t) && ActivePublishers(q.items) < l.publication {
        assert i in Ready(q, true, t);
        assert !HeldBack(i, p);
        assert a.publications != [];
      }
    }
  }

  lemma AdmittedAreReady(q: Queue, l: Limits, p: Publishing, t: int, i: Item)
    requires KeysDistinct(q) && !PausedAt(q, t) && i in Admission(q, l, p, t).publications
    ensures i in Ready(q, true, t)
  {
    hide KeysDistinct, Ready, TakeReviews, TakePublications, Prioritize, ActivePublishers, Eligible, Subsequence, ReviewsTaken;
    AdmissionIsSound(q, l, p, t);
    var a := Admission(q, l, p, t);
    assert a.publications[0..] == a.publications;
    SubsequenceIn(a.publications, Prioritize(Ready(q, true, t), p.freshKeys, p.reserve), i);
    PrioritizeKeepsItems(Ready(q, true, t), p.freshKeys, p.reserve, i);
  }

  /** One pending terminal finalization, due at once, with batches blocked until 100000: the next wake
      is only then, although at 50000 it is admitted. */
  lemma FinalizationIsMissed() returns (q: Queue, l: Limits, p: Publishing)
    ensures KeysDistinct(q) && p.blocked && |q.items| == 1 && q.items[0].terminalFinal && q.items[0].nextAttemptAt == 0
    ensures NextWake(q, l, 0, Some(100000), None) == Some(100000)
    ensures Admission(q, l, p, 50000).publications == q.items
  {
    var i := Item(1, 0, true, Pending, 0, 0, 0, 0, false, false, "r", "o", 1, false, None, false, true, false, None, None, None, 0);
    q := Queue([i], map[], false, 0, 0, {}, {});
    l := Limits(1, 1, 1, 1, 0, 0);
    p := Publishing(true, false, {}, 0);
    assert Eligible(q, i) && Unbatched(q, i, 50000);
    assert ActivePublishers([]) == 0 && [i][..0] == [];
    assert ActivePublishers(q.items) == 0;
    WakeOfOne(q, l, i);
    PublicationsAreMissedExactlyWhen(q, l, p, 0, Some(100000), None, 50000);
    OnlyOne(q, l, p, i);
  }

  lemma WakeOfOne(q: Queue, l: Limits, i: Item)
    requires q.items == [i] && i.state.Pending? && i.publication && i.nextAttemptAt == 0 && Eligible(q, i) && !q.paused
    ensures NextWake(q, l, 0, Some(100000), None) == Some(100000)
  {
    assert ItemAt(q, l, i, 0, Some(100000), None) == 100000;
    assert Wakes(q, l, 0, Some(100000), None) == {100000};
  }

  lemma OnlyOne(q: Queue, l: Limits, p: Publishing, i: Item)
    requires KeysDistinct(q) && q.items == [i] && !PausedAt(q, 50000) && Admission(q, l, p, 50000).publications != []
    ensures Admission(q, l, p, 50000).publications == [i]
  {
    hide Admission, Ready, Eligible, Prioritize, TakePublications;
    var a := Admission(q, l, p, 50000).publications;
    forall x | x in a ensures x == i { AdmittedAreReady(q, l, p, 50000, x); }
    AdmissionSize(q, l, p, i);
    assert a[0] in a;
  }

  lemma AdmissionSize(q: Queue, l: Limits, p: Publishing, i: Item)
    requires KeysDistinct(q) && q.items == [i] && !PausedAt(q, 50000)
    ensures |Admission(q, l, p, 50000).publications| <= 1
  {
    hide KeysDistinct, TakeReviews, TakePublications, Prioritize, ActivePublishers, Eligible, Subsequence, ReviewsTaken, Sorted;
    AdmissionIsSound(q, l, p, 50000);
    var ready := Ready(q, true, 50000);
    assert forall x | x in ReadyRanks(q, true, 50000) :: x == i;
    assert ReadyRanks(q, true, 50000).Keys <= {i};
    SubsetSize(ReadyRanks(q, true, 50000).Keys, {i});
    ReadyIsDistinct(q, true, 50000);
    assert |ready| == |ReadyRanks(q, true, 50000)| == |ReadyRanks(q, true, 50000).Keys|;
    PrioritizeIsFair(ready, p.freshKeys, p.reserve);
    var r := Prioritize(ready, p.freshKeys, p.reserve);
    assert |r| == |multiset(r)| && |ready| == |multiset(ready)|;
    var a := Admission(q, l, p, 50000).publications;
    assert a[0..] == a;
    SubsequenceIsShorter(a, r);
  }

  lemma {:induction false} SubsequenceIsShorter(a: seq<Item>, b: seq<Item>)
    requires Subsequence(a, b)
    ensures |a| <= |b|
    decreases |b|
  {
    if a != [] && b != [] {
      if a[0] == b[0] && Subsequence(a[1..], b[1..]) {
        SubsequenceIsShorter(a[1..], b[1..]);
      } else {
        SubsequenceIsShorter(a, b[1..]);
      }
    }
  }
}

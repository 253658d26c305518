/** When the queue looks again: each moment told by the holds that must be over by then. */
module QueueAdmissionWakes {
  import opened Ordering
  import opened QueueAdmission

  // ----- leases -----

  /** A lease is over when its time has come; sooner where a leased item's heartbeat is older than the
      grace, or an unclaimed publication has been dispatching for too long. */
  lemma LeaseEndsExactlyWhen(i: Item, l: Limits, t: int)
    ensures Lease(i, l) <= t <==>
              || i.leaseExpiresAt <= t
              || (i.leaseExpiresAt != 0 && i.state.Leased? && i.heartbeatAt != 0 && !i.finalizing && i.heartbeatAt + l.graceMs <= t)
              || (i.leaseExpiresAt != 0 && i.state.Dispatching? && i.publication && !i.claimed && i.dispatchedAt != 0
                  && i.dispatchedAt + l.dispatchMs <= t)
  {
  }

  /** A running lease of the kind, still to end, that has ended by `t`. */
  ghost predicate Frees(q: Queue, l: Limits, i: Item, now: int, t: int) {
    i in q.items && (i.state.Dispatching? || i.state.Leased?) && Lease(i, l) != 0 && now < Lease(i, l) <= t
  }

  ghost predicate Running(q: Queue, l: Limits, i: Item, now: int) {
    i in q.items && (i.state.Dispatching? || i.state.Leased?) && Lease(i, l) != 0 && now < Lease(i, l)
  }

  ghost predicate IsScheduled(i: Item) { if i.leaseScheduled.Some? then i.leaseScheduled.value else i.scheduled }

  // ----- the moment of one item -----

  /** By `t` a review slot of the wanted kind may be free: reviews are not full, nor is the target, or one
      of the leases that fill them has ended; none of them running, there is nothing to wait for. */
  ghost predicate CapacityMayBeFree(q: Queue, l: Limits, target: string, now: int, t: int) {
    var full := ActiveReviews(q.items) >= l.review;
    var targetFull := ActiveTarget(q.items, target) >= l.target;
    var waits := exists j :: Running(q, l, j, now) && !j.publication && (full || (targetFull && j.target == target));
    waits ==> exists j :: Frees(q, l, j, now, t) && !j.publication && (full || (targetFull && j.target == target))
  }

  ghost predicate LaneMayBeFree(q: Queue, l: Limits, now: int, t: int) {
    var waits := ActiveScheduled(q.items) >= l.scheduled && exists j :: Running(q, l, j, now) && !j.publication && IsScheduled(j);
    waits ==> exists j :: Frees(q, l, j, now, t) && !j.publication && IsScheduled(j)
  }

  lemma WhenFullEnds(full: bool, wakes: set<int>, fallback: int, t: int)
    requires fallback <= t
    ensures OrElse(WhenFull(full, wakes), fallback) <= t <==> (full && wakes != {} ==> exists w | w in wakes :: w <= t)
  {
    if full && wakes != {} {
      assert LeastOf(wakes) in wakes;
    }
  }

  predicate IsReview(i: Item) { !i.publication }

  predicate IsPublication(i: Item) { i.publication }

  ghost predicate IsScheduledReview(i: Item) { !i.publication && IsScheduled(i) }

  function IsReviewFor(target: string): Item -> bool { (i: Item) => !i.publication && i.target == target }

  /** The ends of the running leases of one kind of item. */
  ghost function Ends(q: Queue, l: Limits, now: int, f: Item -> bool): set<int> {
    set i | i in q.items && Running(q, l, i, now) && f(i) :: Lease(i, l)
  }

  lemma EndsExactly(q: Queue, l: Limits, now: int, f: Item -> bool, t: int)
    ensures (exists w | w in Ends(q, l, now, f) :: w <= t) <==> exists j :: Frees(q, l, j, now, t) && f(j)
    ensures Ends(q, l, now, f) != {} <==> exists j :: Running(q, l, j, now) && f(j)
  {
    hide Lease;
    if j :| Frees(q, l, j, now, t) && f(j) { assert Lease(j, l) in Ends(q, l, now, f); }
    if j :| Running(q, l, j, now) && f(j) { assert Lease(j, l) in Ends(q, l, now, f); }
    if w :| w in Ends(q, l, now, f) && w <= t {
      var j :| j in q.items && Running(q, l, j, now) && f(j) && Lease(j, l) == w;
      assert Frees(q, l, j, now, t) && f(j);
    }
  }

  lemma WakesAreEnds(q: Queue, l: Limits, target: string, now: int)
    ensures ReviewWakes(q, l, now) == Ends(q, l, now, IsReview)
    ensures PublisherWakes(q, l, now) == Ends(q, l, now, IsPublication)
    ensures ScheduledWakes(q, l, now) == Ends(q, l, now, IsScheduledReview)
    ensures TargetWakes(q, l, target, now) == Ends(q, l, now, IsReviewFor(target))
  {
    hide Lease;
    assert forall i :: Running(q, l, i, now) <==> i in q.items && LiveLease(i, l, i.publication, now);
  }

  lemma WakesAreLeases(q: Queue, l: Limits, target: string, now: int, t: int)
    ensures (exists w | w in ReviewWakes(q, l, now) :: w <= t) <==> exists j :: Frees(q, l, j, now, t) && !j.publication
    ensures (exists w | w in TargetWakes(q, l, target, now) :: w <= t) <==>
              exists j :: Frees(q, l, j, now, t) && !j.publication && j.target == target
    ensures (exists w | w in ScheduledWakes(q, l, now) :: w <= t) <==> exists j :: Frees(q, l, j, now, t) && !j.publication && IsScheduled(j)
    ensures (exists w | w in PublisherWakes(q, l, now) :: w <= t) <==> exists j :: Frees(q, l, j, now, t) && j.publication
  {
    hide Lease, Frees, Running, Ends, ReviewWakes, TargetWakes, ScheduledWakes, PublisherWakes;
    WakesAreEnds(q, l, target, now);
    EndsExactly(q, l, now, IsReview, t);
    EndsExactly(q, l, now, IsReviewFor(target), t);
    EndsExactly(q, l, now, IsScheduledReview, t);
    EndsExactly(q, l, now, IsPublication, t);
    assert forall j: Item :: IsReviewFor(target)(j) <==> !j.publication && j.target == target;
  }

  lemma SomeWakes(q: Queue, l: Limits, target: string, now: int)
    ensures ReviewWakes(q, l, now) != {} <==> exists j :: Running(q, l, j, now) && !j.publication
    ensures TargetWakes(q, l, target, now) != {} <==> exists j :: Running(q, l, j, now) && !j.publication && j.target == target
    ensures ScheduledWakes(q, l, now) != {} <==> exists j :: Running(q, l, j, now) && !j.publication && IsScheduled(j)
    ensures PublisherWakes(q, l, now) != {} <==> exists j :: Running(q, l, j, now) && j.publication
  {
    hide Lease, Frees, Running, Ends, ReviewWakes, TargetWakes, ScheduledWakes, PublisherWakes;
    WakesAreEnds(q, l, target, now);
    EndsExactly(q, l, now, IsReview, 0);
    EndsExactly(q, l, now, IsReviewFor(target), 0);
    EndsExactly(q, l, now, IsScheduledReview, 0);
    EndsExactly(q, l, now, IsPublication, 0);
    assert forall j: Item :: IsReviewFor(target)(j) <==> !j.publication && j.target == target;
  }

  lemma CapacityEnds(q: Queue, l: Limits, target: string, now: int, fallback: int, t: int)
    requires fallback <= t
    ensures OrElse(CapacityWake(q, l, target, now), fallback) <= t <==> CapacityMayBeFree(q, l, target, now, t)
  {
    hide ReviewWakes, TargetWakes, ActiveReviews, ActiveTarget, LeastOf, Running, Frees, WhenFull;
    WakesAreLeases(q, l, target, now, t);
    SomeWakes(q, l, target, now);
    WhenFullEnds(ActiveReviews(q.items) >= l.review, ReviewWakes(q, l, now), t, t);
    WhenFullEnds(ActiveTarget(q.items, target) >= l.target, TargetWakes(q, l, target, now), t, t);
    WhenFullIs(ActiveReviews(q.items) >= l.review, ReviewWakes(q, l, now));
    WhenFullIs(ActiveTarget(q.items, target) >= l.target, TargetWakes(q, l, target, now));
  }

  lemma WhenFullIs(full: bool, wakes: set<int>)
    ensures WhenFull(full, wakes).Some? <==> full && wakes != {}
  {
  }

  /** A review's moment has come exactly when it is due, the gate and its owner's circuit have passed, and
      its slot, target and lane may be free. */
  lemma ReviewMomentExactly(q: Queue, l: Limits, i: Item, now: int, gate: Option<int>, t: int)
    requires 0 <= now <= t
    ensures ReviewAt(q, l, i, now, gate) <= t <==>
              && i.nextAttemptAt <= t
              && (gate.Some? ==> gate.value <= t)
              && (i.owner in q.circuits && q.circuits[i.owner] > now ==> q.circuits[i.owner] <= t)
              && CapacityMayBeFree(q, l, i.target, now, t)
              && (i.scheduled ==> LaneMayBeFree(q, l, now, t))
  {
    hide CapacityWake, ActiveScheduled, ScheduledWakes, CapacityMayBeFree, WhenFull, Running, Frees;
    if i.nextAttemptAt <= t {
      CapacityEnds(q, l, i.target, now, i.nextAttemptAt, t);
      WhenFullEnds(ActiveScheduled(q.items) >= l.scheduled, ScheduledWakes(q, l, now), i.nextAttemptAt, t);
      WakesAreLeases(q, l, i.target, now, t);
      SomeWakes(q, l, i.target, now);
    }
  }

  /** A publication's moment has come exactly when it is due and batches hold it no longer; or, with none
      holding it, when a publisher may be free: not all are busy, a lease of one has ended, or, where none
      is running, half a minute has passed. Without any publisher, reviews are waited for as well. */
  lemma PublicationMomentExactly(q: Queue, l: Limits, i: Item, now: int, blockedUntil: Option<int>, t: int)
    ensures var held := blockedUntil.Some? && blockedUntil.value > now;
            var waits := exists j :: Running(q, l, j, now) && (j.publication || l.publication <= 0);
            PublicationAt(q, l, i, now, blockedUntil) <= t <==>
              && i.nextAttemptAt <= t
              && (held ==> blockedUntil.value <= t)
              && (!held && ActivePublishers(q.items) >= l.publication ==>
                    if waits then exists j :: Frees(q, l, j, now, t) && (j.publication || l.publication <= 0) else now + 30000 <= t)
  {
    hide ActivePublishers, ReviewWakes, PublisherWakes, Running, Frees;
    WakesAreLeases(q, l, "", now, t);
    SomeWakes(q, l, "", now);
    var wakes := if l.publication <= 0 then PublisherWakes(q, l, now) + ReviewWakes(q, l, now) else PublisherWakes(q, l, now);
    if wakes != {} { assert LeastOf(wakes) in wakes; }
  }

  // ----- the next wake -----

  /** A moment worth waking for. */
  ghost predicate Moment(q: Queue, l: Limits, now: int, blockedUntil: Option<int>, gate: Option<int>, x: int) {
    exists i | i in q.items ::
      || (Eligible(q, i) && x == ItemAt(q, l, i, now, blockedUntil, gate))
      || (i.state.Parked? && i.recoveryAt == Some(x))
      || (i.state.Parked? && i.terminalCheckAt.Some? && x == TerminalAt(q, i, now))
      || (Running(q, l, i, now) && x == Lease(i, l))
  }

  lemma WakesAreMoments(q: Queue, l: Limits, now: int, blockedUntil: Option<int>, gate: Option<int>, x: int)
    ensures x in Wakes(q, l, now, blockedUntil, gate) <==> Moment(q, l, now, blockedUntil, gate, x)
  {
    hide ItemAt, TerminalAt, Lease, Eligible;
  }

  /** The queue wakes in a second where a running item has no lease or an outlived one, and otherwise at
      the first moment there is, a second away at least; with no moment it does not wake. */
  lemma NextWakeIsTheFirstMoment(q: Queue, l: Limits, now: int, blockedUntil: Option<int>, gate: Option<int>)
    ensures var w := NextWake(q, l, now, blockedUntil, gate);
            var overdue := exists i | i in q.items ::
              (i.state.Dispatching? || i.state.Leased?) && (i.leaseExpiresAt == 0 || Lease(i, l) <= now);
            if overdue then w == Some(now + 1000)
            else
              && (w.None? <==> forall x :: !Moment(q, l, now, blockedUntil, gate, x))
              && (w.Some? ==> (exists x :: Moment(q, l, now, blockedUntil, gate, x) && w.value == Max(now + 1000, x))
                              && forall x | Moment(q, l, now, blockedUntil, gate, x) :: w.value <= Max(now + 1000, x))
  {
    hide Wakes, Moment, Lease;
    forall x ensures x in Wakes(q, l, now, blockedUntil, gate) <==> Moment(q, l, now, blockedUntil, gate, x) {
      WakesAreMoments(q, l, now, blockedUntil, gate, x);
    }
    if q.items == [] {
      forall x ensures !Moment(q, l, now, blockedUntil, gate, x) { NoItemsNoMoment(q, l, now, blockedUntil, gate, x); }
    }
    assert forall i | i in q.items :: Overdue(i, l, now) <==>
      (i.state.Dispatching? || i.state.Leased?) && (i.leaseExpiresAt == 0 || Lease(i, l) <= now);
  }

  lemma NoItemsNoMoment(q: Queue, l: Limits, now: int, blockedUntil: Option<int>, gate: Option<int>, x: int)
    requires q.items == []
    ensures !Moment(q, l, now, blockedUntil, gate, x)
  {
  }

  /** The terminal check of a parked item waits for its own time, five minutes after the last check of
      any item, and the end of a pause. */
  lemma {:induction false} LastCheckedIsLatest(items: seq<Item>, checkedAt: int, t: int)
    ensures LastChecked(items, checkedAt) <= t <==> checkedAt <= t && forall i | i in items :: i.terminalCheckedAt <= t
    decreases |items|
  {
    if items != [] {
      LastCheckedIsLatest(items[..|items| - 1], checkedAt, t);
      assert items == items[..|items| - 1] + [items[|items| - 1]];
    }
  }

  lemma TerminalMomentExactly(q: Queue, i: Item, now: int, t: int)
    requires i.terminalCheckAt.Some? && t >= 0
    ensures TerminalAt(q, i, now) <= t <==>
              && i.terminalCheckAt.value <= t
              && q.checkedAt + 300000 <= t && (forall j | j in q.items :: j.terminalCheckedAt + 300000 <= t)
              && (q.paused && q.retryAt > now ==> q.retryAt <= t)
  {
    hide LastChecked;
    LastCheckedIsLatest(q.items, q.checkedAt, t - 300000);
  }
}

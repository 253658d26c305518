/** The loops of the queue read model: census, prioritization, admission and wake-up, as they run. */
module QueueAdmissionLoops {
  import opened Ordering
  import opened QueueAdmission
  import opened QueueAdmissionSafety

  function Get(counts: map<string, nat>, target: string): nat { if target in counts then counts[target] else 0 }

  /** One pass over the items counts what is running, by lane and by target. */
  method Census(items: seq<Item>) returns (reviews: nat, publishers: nat, scheduled: nat, targets: map<string, nat>)
    ensures reviews == ActiveReviews(items) && publishers == ActivePublishers(items) && scheduled == ActiveScheduled(items)
    ensures forall t :: Get(targets, t) == ActiveTarget(items, t)
  {
    reviews, publishers, scheduled, targets := 0, 0, 0, map[];
    var n := 0;
    while n < |items|
      invariant 0 <= n <= |items|
      invariant reviews == ActiveReviews(items[..n]) && publishers == ActivePublishers(items[..n])
      invariant scheduled == ActiveScheduled(items[..n])
      invariant forall t :: Get(targets, t) == ActiveTarget(items[..n], t)
    {
      assert items[..n + 1][..n] == items[..n];
      var i := items[n];
      if i.Active() {
        if i.publication {
          publishers := publishers + 1;
        } else {
          reviews := reviews + 1;
          if i.OwnerScheduled() {
            scheduled := scheduled + 1;
          }
          targets := targets[i.target := Get(targets, i.target) + 1];
        }
      }
      n := n + 1;
    }
    assert items[..|items|] == items;
  }

  method PrioritizePublications(items: seq<Item>, keys: set<int>, reserve: nat) returns (r: seq<Item>)
    ensures r == Prioritize(items, keys, reserve)
  {
    if reserve == 0 || keys == {} {
      return items;
    }
    var recent: seq<Item>, historical: seq<Item> := [], [];
    var n := 0;
    while n < |items|
      invariant 0 <= n <= |items|
      invariant recent == Fresh(items[..n], keys) && historical == Historical(items[..n], keys)
    {
      assert items[..n + 1][..n] == items[..n];
      if items[n].key in keys {
        recent := recent + [items[n]];
      } else {
        historical := historical + [items[n]];
      }
      n := n + 1;
    }
    assert items[..|items|] == items;
    if recent == [] || historical == [] {
      return items;
    }
    return Limit(recent, reserve) + historical + recent[|Limit(recent, reserve)|..];
  }

  method AdmitReviews(q: Queue, l: Limits, ready: seq<Item>, now: int, active: nat, running: nat, counts: map<string, nat>)
    returns (admitted: seq<Item>)
    requires active == ActiveReviews(q.items) && running == ActiveScheduled(q.items)
    requires forall t :: Get(counts, t) == ActiveTarget(q.items, t)
    ensures admitted == TakeReviews(q, l, ready, [], now)
  {
    hide ActiveReviews, ActiveScheduled, ActiveTarget, CountScheduled, CountTarget;
    admitted := [];
    var slots := Max(0, l.review - active);
    var scheduled := running;
    var targets: map<string, nat> := counts;
    var n := 0;
    assert CountScheduled([]) == 0 && forall t :: CountTarget([], t) == 0 by { NoCounts(); }
    while n < |ready| && |admitted| < slots
      invariant 0 <= n <= |ready|
      invariant TakeReviews(q, l, ready[n..], admitted, now) == TakeReviews(q, l, ready, [], now)
      invariant scheduled == ActiveScheduled(q.items) + CountScheduled(admitted)
      invariant forall t :: Get(targets, t) == ActiveTarget(q.items, t) + CountTarget(admitted, t)
    {
      assert ready[n..][1..] == ready[n + 1..];
      var i := ready[n];
      n := n + 1;
      if i.scheduled && scheduled >= l.scheduled {
        continue;
      }
      if CircuitAt(q, i.owner, now) > now {
        continue;
      }
      if Get(targets, i.target) >= l.target {
        continue;
      }
      forall t ensures CountTarget(admitted + [i], t) == CountTarget(admitted, t) + (if i.target == t then 1 else 0) {
        CountsAppend(admitted, i, t);
      }
      CountsAppend(admitted, i, i.target);
      targets := targets[i.target := Get(targets, i.target) + 1];
      if i.scheduled {
        scheduled := scheduled + 1;
      }
      admitted := admitted + [i];
    }
  }

  lemma NoCounts()
    ensures CountScheduled([]) == 0 && forall t :: CountTarget([], t) == 0
  {
  }

  method AdmitPublications(active: nat, l: Limits, p: Publishing, ready: seq<Item>) returns (admitted: seq<Item>)
    ensures admitted == TakePublications(active, l, p, ready, [])
  {
    admitted := [];
    var records: set<(string, int)> := {};
    var publishers := active;
    var n := 0;
    while n < |ready|
      invariant 0 <= n <= |ready|
      invariant TakePublications(active, l, p, ready[n..], admitted) == TakePublications(active, l, p, ready, [])
      invariant publishers == active + |admitted|
      invariant p.unique ==> records == set j | j in admitted :: (j.target, j.number)
    {
      assert ready[n..][1..] == ready[n + 1..];
      var i := ready[n];
      n := n + 1;
      if p.blocked && !i.terminalFinal && i.Batchable() {
        continue;
      }
      if publishers >= l.publication {
        return;
      }
      if p.unique && (i.target, i.number) in records {
        continue;
      }
      publishers := publishers + 1;
      if p.unique {
        records := records + {(i.target, i.number)};
      }
      admitted := admitted + [i];
    }
  }

  method AdmittedItems(q: Queue, l: Limits, p: Publishing, now: int) returns (admitted: Admitted)
    requires KeysDistinct(q)
    ensures admitted == Admission(q, l, p, now)
  {
    hide KeysDistinct, Ready, Prioritize, TakeReviews, TakePublications, ActivePublishers;
    if PausedAt(q, now) {
      return Admitted([], []);
    }
    var active, publishers, scheduled, targets := Census(q.items);
    var publications := PrioritizePublications(Ready(q, true, now), p.freshKeys, p.reserve);
    var reviews := AdmitReviews(q, l, Ready(q, false, now), now, active, scheduled, targets);
    var published := AdmitPublications(publishers, l, p, publications);
    return Admitted(reviews, published);
  }

  // ----- the next wake -----

  /** The moments one item is worth waking for. */
  function WakesOf(q: Queue, l: Limits, i: Item, now: int, blockedUntil: Option<int>, gate: Option<int>): set<int> {
    (if Eligible(q, i) then {ItemAt(q, l, i, now, blockedUntil, gate)} else {})
    + (if i.state.Parked? && i.recoveryAt.Some? then {i.recoveryAt.value} else {})
    + (if i.state.Parked? && i.terminalCheckAt.Some? then {TerminalAt(q, i, now)} else {})
    + (if LiveLease(i, l, i.publication, now) then {Lease(i, l)} else {})
  }

  function WakesOfAll(q: Queue, l: Limits, items: seq<Item>, now: int, blockedUntil: Option<int>, gate: Option<int>): set<int> {
    if items == [] then {}
    else WakesOfAll(q, l, items[..|items| - 1], now, blockedUntil, gate) + WakesOf(q, l, items[|items| - 1], now, blockedUntil, gate)
  }

  lemma {:induction false} WakesOfAllIs(q: Queue, l: Limits, items: seq<Item>, now: int, blockedUntil: Option<int>, gate: Option<int>, w: int)
    ensures w in WakesOfAll(q, l, items, now, blockedUntil, gate)
       <==> exists i | i in items :: w in WakesOf(q, l, i, now, blockedUntil, gate)
    decreases |items|
  {
    hide WakesOf;
    if items != [] {
      var init, last := items[..|items| - 1], items[|items| - 1];
      WakesOfAllIs(q, l, init, now, blockedUntil, gate, w);
      assert items == init + [last];
      assert forall i :: i in items <==> i in init || i == last;
    }
  }

  lemma WakeOfItem(q: Queue, l: Limits, now: int, blockedUntil: Option<int>, gate: Option<int>, i: Item, w: int)
    requires i in q.items && w in WakesOf(q, l, i, now, blockedUntil, gate)
    ensures w in Wakes(q, l, now, blockedUntil, gate)
  {
    hide ItemAt, TerminalAt, Eligible, Lease;
    if LiveLease(i, l, i.publication, now) && w == Lease(i, l) {
      assert w in ReviewWakes(q, l, now) || w in PublisherWakes(q, l, now);
    }
  }

  lemma WakeHasItem(q: Queue, l: Limits, now: int, blockedUntil: Option<int>, gate: Option<int>, w: int)
    requires w in Wakes(q, l, now, blockedUntil, gate)
    ensures exists i | i in q.items :: w in WakesOf(q, l, i, now, blockedUntil, gate)
  {
    hide ItemAt, TerminalAt, Eligible, Lease;
    if w in ReviewWakes(q, l, now) + PublisherWakes(q, l, now) {
      var i :| i in q.items && LiveLease(i, l, i.publication, now) && w == Lease(i, l);
      assert w in WakesOf(q, l, i, now, blockedUntil, gate);
    } else if i :| i in q.items && Eligible(q, i) && w == ItemAt(q, l, i, now, blockedUntil, gate) {
      assert w in WakesOf(q, l, i, now, blockedUntil, gate);
    } else {
      var i :| i in q.items && i.state.Parked?
            && (i.recoveryAt == Some(w) || (i.terminalCheckAt.Some? && w == TerminalAt(q, i, now)));
      assert w in WakesOf(q, l, i, now, blockedUntil, gate);
    }
  }

  lemma AllWakes(q: Queue, l: Limits, now: int, blockedUntil: Option<int>, gate: Option<int>)
    ensures WakesOfAll(q, l, q.items, now, blockedUntil, gate) == Wakes(q, l, now, blockedUntil, gate)
  {
    hide WakesOfAll, WakesOf, Wakes;
    var all := Wakes(q, l, now, blockedUntil, gate);
    forall w ensures w in WakesOfAll(q, l, q.items, now, blockedUntil, gate) <==> w in all {
      WakesOfAllIs(q, l, q.items, now, blockedUntil, gate, w);
      if w in all {
        WakeHasItem(q, l, now, blockedUntil, gate, w);
      } else {
        forall i | i in q.items ensures w !in WakesOf(q, l, i, now, blockedUntil, gate) {
          if w in WakesOf(q, l, i, now, blockedUntil, gate) {
            WakeOfItem(q, l, now, blockedUntil, gate, i, w);
          }
        }
      }
    }
  }

  /** The earliest so far is the least of the moments seen so far. */
  ghost predicate IsEarliest(earliest: Option<int>, seen: set<int>) {
    && (earliest.None? <==> seen == {})
    && (earliest.Some? ==> earliest.value in seen && forall w | w in seen :: earliest.value <= w)
  }

  method Include(earliest: Option<int>, candidate: int, ghost seen: set<int>) returns (r: Option<int>)
    requires IsEarliest(earliest, seen)
    ensures IsEarliest(r, seen + {candidate})
  {
    r := if earliest.None? then Some(candidate) else Some(Min(earliest.value, candidate));
  }

  method IncludeItem(q: Queue, l: Limits, i: Item, now: int, blockedUntil: Option<int>, gate: Option<int>,
                     earliest: Option<int>, ghost seen: set<int>)
    returns (r: Option<int>)
    requires IsEarliest(earliest, seen)
    ensures IsEarliest(r, seen + WakesOf(q, l, i, now, blockedUntil, gate))
  {
    hide ItemAt, TerminalAt, Eligible, Lease, LiveLease, IsEarliest;
    r := earliest;
    ghost var met := seen;
    if Eligible(q, i) {
      r := Include(r, ItemAt(q, l, i, now, blockedUntil, gate), met);
      met := met + {ItemAt(q, l, i, now, blockedUntil, gate)};
    }
    if i.state.Parked? && i.recoveryAt.Some? {
      r := Include(r, i.recoveryAt.value, met);
      met := met + {i.recoveryAt.value};
    }
    if i.state.Parked? && i.terminalCheckAt.Some? {
      r := Include(r, TerminalAt(q, i, now), met);
      met := met + {TerminalAt(q, i, now)};
    }
    if LiveLease(i, l, i.publication, now) {
      r := Include(r, Lease(i, l), met);
      met := met + {Lease(i, l)};
    }
    assert met == seen + WakesOf(q, l, i, now, blockedUntil, gate);
  }

  lemma EarliestIsNext(q: Queue, l: Limits, now: int, blockedUntil: Option<int>, gate: Option<int>, earliest: Option<int>)
    requires q.items != [] && (forall i | i in q.items :: !Overdue(i, l, now))
    requires IsEarliest(earliest, Wakes(q, l, now, blockedUntil, gate))
    ensures NextWake(q, l, now, blockedUntil, gate) == if earliest.None? then None else Some(Max(now + WAKE_MS, earliest.value))
  {
    hide Wakes, Overdue;
  }

  method NextWakeAt(q: Queue, l: Limits, now: int, blockedUntil: Option<int>, gate: Option<int>) returns (wake: Option<int>)
    ensures wake == NextWake(q, l, now, blockedUntil, gate)
  {
    hide Wakes, WakesOf, Overdue, LeastOf, IsEarliest;
    if q.items == [] {
      return None;
    }
    var overdue := AnyOverdue(q.items, l, now);
    if overdue {
      return Some(now + WAKE_MS);
    }
    hide NextWake;
    var earliest: Option<int> := None;
    var n := 0;
    assert IsEarliest(None, {}) by { NothingSeen(); }
    while n < |q.items|
      invariant 0 <= n <= |q.items|
      invariant IsEarliest(earliest, WakesOfAll(q, l, q.items[..n], now, blockedUntil, gate))
    {
      assert q.items[..n + 1][..n] == q.items[..n];
      earliest := IncludeItem(q, l, q.items[n], now, blockedUntil, gate, earliest,
                              WakesOfAll(q, l, q.items[..n], now, blockedUntil, gate));
      n := n + 1;
    }
    assert q.items[..|q.items|] == q.items;
    AllWakes(q, l, now, blockedUntil, gate);
    EarliestIsNext(q, l, now, blockedUntil, gate, earliest);
    return if earliest.None? then None else Some(Max(now + WAKE_MS, earliest.value));
  }

  lemma NothingSeen()
    ensures IsEarliest(None, {})
  {
  }

  method AnyOverdue(items: seq<Item>, l: Limits, now: int) returns (overdue: bool)
    ensures overdue <==> exists i | i in items :: Overdue(i, l, now)
  {
    hide Overdue;
    var n := 0;
    while n < |items|
      invariant 0 <= n <= |items|
      invariant forall j | 0 <= j < n :: !Overdue(items[j], l, now)
    {
      if Overdue(items[n], l, now) {
        assert items[n] in items;
        return true;
      }
      n := n + 1;
    }
    return false;
  }
}

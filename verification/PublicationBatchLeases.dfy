/** Leases step by step: what stays final, how many run at once, what a claim takes, what
    cleanup removes, and why a repeated completion is harmless. */
module PublicationBatchLeases {
  import opened Ordering
  import opened PublicationBatches
  import opened PublicationBatchSafety
  import opened PublicationBatchRuns

  // ----- finality -----

  /** A surviving batch keeps its owner and size; its lease end never moves back; once it is
      finished its whole row is frozen. A surviving membership keeps its revision and
      generation, and an outcome once set. A row disappears only when its batch was finished
      or its lease had run out. */
  ghost predicate Advances(t: Tables, u: Tables, now: int) {
    && (forall id | id in t.batches && id in u.batches :: BatchAdvances(t.batches[id], u.batches[id]))
    && (forall id | id in t.batches && id !in u.batches :: !t.batches[id].state.Leased? || t.batches[id].expiresAt <= now)
    && (forall s | s in t.members && s in u.members :: KeptRow(t, u, s))
    && (forall s | s in t.members && s !in u.members :: s.batch !in u.batches)
  }

  ghost predicate BatchAdvances(b: Batch, c: Batch) {
    && c.owner == b.owner && c.size == b.size && c.expiresAt >= b.expiresAt
    && (!b.state.Leased? ==> c == b)
  }

  function Time(ev: Event): int {
    match ev
    case Claim(_, _, _, now, _, _, _) => now
    case Fetch(_, _, now) => now
    case Heartbeat(_, _, _, _, now) => now
    case OwnsFence(_, now) => now
    case Complete(_, _, _, now, _, _, _) => now
    case Stats(now, _, _) => now
    case Restart => 0
  }

  lemma ReclaimAdvances(t: Tables, now: int)
    ensures Advances(t, Reclaim(t, now), now)
  {
  }

  lemma AdvancesAfterReclaim(t: Tables, u: Tables, now: int)
    requires Advances(Reclaim(t, now), u, now)
    ensures Advances(t, u, now)
  {
    var r := Reclaim(t, now);
    forall id | id in t.batches && id in u.batches ensures BatchAdvances(t.batches[id], u.batches[id]) {
      assert BatchAdvances(r.batches[id], u.batches[id]);
    }
    forall s | s in t.members && s in u.members ensures KeptRow(t, u, s) {
      assert KeptRow(r, u, s);
    }
    assert r.batches.Keys == t.batches.Keys && r.members.Keys == t.members.Keys;
  }

  lemma ItselfAdvances(t: Tables, now: int)
    ensures Advances(t, t, now)
  {
  }

  lemma ClaimAdvances(t: Tables, ev: Event)
    requires Inv(t) && ev.Claim?
    ensures Advances(t, ClaimTx(t, ev).tables, ev.now)
  {
    hide Inv, Reclaim, Fill, Advances, Keyed, Filling;
    var r := Reclaim(t, ev.now);
    ReclaimKeepsInv(t, ev.now);
    ReclaimAdvances(t, ev.now);
    ItselfAdvances(t, ev.now);
    if ev.id !in r.batches && |LeasedIds(r)| < Cap(ev.maxConcurrent) && ev.maxItems >= 1 {
      var begun := Begun(r, ev);
      BegunIsFilling(r, ev);
      FillingIsKeyed(begun, ev.id);
      assert ev.id in begun.batches;
      FillEvolves(begun, ev.id, ev.maxItems, ev.candidates);
      FillKeepsFilling(begun, ev.id, ev.candidates);
      var filled := Fill(begun, ev.id, ev.maxItems, ev.candidates);
      AddedRowsAdvance(r, filled, ev.now);
      AddedRowsAdvance(r, filled.(batches := filled.batches - {ev.id}), ev.now);
      AdvancesAfterReclaim(t, ClaimTx(t, ev).tables, ev.now);
    }
  }

  lemma AddedRowsAdvance(t: Tables, u: Tables, now: int)
    requires forall id | id in t.batches :: id in u.batches && u.batches[id] == t.batches[id]
    requires forall s | s in t.members :: s in u.members && u.members[s] == t.members[s]
    ensures Advances(t, u, now)
  {
  }

  lemma FinishAdvances(t: Tables, ev: Event)
    requires ev.Complete? && ev.id in t.batches && t.batches[ev.id].state.Leased?
    ensures Advances(t, Finish(t, ev), ev.now)
  {
    hide Finish, Acceptable;
    FinishIsCalm(t, ev);
    FinishBatches(t, ev);
    var u := Finish(t, ev);
    forall s | s in t.members && s in u.members ensures KeptRow(t, u, s) {}
  }

  lemma DeleteAdvances(t: Tables, ids: set<int>, now: int)
    requires forall id | id in ids && id in t.batches :: !t.batches[id].state.Leased?
    ensures Advances(t, Delete(t, ids), now)
  {
  }

  /** Every transaction only ever moves leases and memberships forward. */
  lemma StepAdvances(t: Tables, ev: Event)
    requires Inv(t)
    ensures Advances(t, Apply(t, ev).tables, Time(ev))
  {
    hide Inv, Reclaim, ClaimTx, Finish, Reseed, Delete, Advances, Victims;
    var now := Time(ev);
    ReclaimAdvances(t, now);
    ItselfAdvances(t, now);
    var r := Reclaim(t, now);
    match ev
    case Claim(_, _, _, _, _, _, _) => ClaimAdvances(t, ev);
    case Fetch(_, _, _) =>
    case Heartbeat(id, _, _, _, _) =>
      var u := HeartbeatTx(t, ev).tables;
      if u != r {
        ExtendedLeaseAdvances(r, u, id, now);
        AdvancesAfterReclaim(t, u, now);
      }
    case OwnsFence(_, _) =>
    case Complete(id, _, _, _, _, _, _) =>
      if id in r.batches && r.batches[id].state.Leased? {
        FinishAdvances(r, ev);
        AdvancesAfterReclaim(t, Finish(r, ev), now);
      }
    case Stats(_, ttl, limit) =>
      VictimsAreStale(r, now - ttl, limit);
      DeleteAdvances(r, VictimIds(r, now - ttl, limit), now);
      AdvancesAfterReclaim(t, Delete(r, VictimIds(r, now - ttl, limit)), now);
    case Restart => RestartIsSilent(t);
  }

  lemma ExtendedLeaseAdvances(t: Tables, u: Tables, id: int, now: int)
    requires id in t.batches && t.batches[id].state.Leased?
    requires exists later :: later >= t.batches[id].expiresAt
                             && u == t.(batches := t.batches[id := t.batches[id].(expiresAt := later)])
    ensures Advances(t, u, now)
  {
  }

  lemma VictimsAreStale(t: Tables, cutoff: int, limit: int)
    ensures VictimIds(t, cutoff, limit) <= StaleIds(t, cutoff)
  {
    assert forall id | id in Victims(t, cutoff, limit) :: id in Sorted(Ages(t, cutoff));
  }

  // ----- concurrency -----

  lemma LeasedIdsShrink(t: Tables, u: Tables)
    requires forall id | id in u.batches && u.batches[id].state.Leased? :: id in t.batches && t.batches[id].state.Leased?
    ensures |LeasedIds(u)| <= |LeasedIds(t)|
  {
    assert forall id | id in LeasedIds(u) :: id in LeasedIds(t);
    SubsetSize(LeasedIds(u), LeasedIds(t));
  }

  lemma AtMostOneMoreLease(t: Tables, u: Tables, id: int)
    requires forall other | other in u.batches && other != id && u.batches[other].state.Leased? ::
               other in t.batches && t.batches[other].state.Leased?
    ensures |LeasedIds(u)| <= |LeasedIds(t)| + 1
  {
    assert forall x | x in LeasedIds(u) :: x in LeasedIds(t) + {id};
    SubsetSize(LeasedIds(u), LeasedIds(t) + {id});
  }

  lemma StepLeases(t: Tables, ev: Event)
    requires Inv(t)
    ensures var u := Apply(t, ev).tables;
            |LeasedIds(u)| <= |LeasedIds(t)| || (ev.Claim? && |LeasedIds(u)| <= Cap(ev.maxConcurrent))
  {
    hide Inv, Reclaim, Fill, Finish, Reseed, Victims, LeasedIds;
    var u := Apply(t, ev).tables;
    var now := Time(ev);
    var r := Reclaim(t, now);
    forall id | id in r.batches && r.batches[id].state.Leased? ensures id in t.batches && t.batches[id].state.Leased? {
      ReclaimIsCalm(t, now);
      ReclaimBatch(t, now, id);
    }
    LeasedIdsShrink(t, r);
    match ev
    case Claim(id, _, _, _, _, _, _) =>
      if u != t && u != r {
        ReclaimKeepsInv(t, now);
        BegunIsFilling(r, ev);
        FillKeepsFilling(Begun(r, ev), id, ev.candidates);
        AtMostOneMoreLease(r, u, id);
      }
    case Complete(id, _, _, _, _, _, _) =>
      if id in r.batches {
        FinishBatches(r, ev);
        FinishIsCalm(r, ev);
        LeasedIdsShrink(r, Finish(r, ev));
      }
    case Heartbeat(id, _, _, _, _) => LeasedIdsShrink(r, u);
    case Stats(_, _, _) => LeasedIdsShrink(r, u);
    case Restart => RestartIsSilent(t);
    case Fetch(_, _, _) =>
    case OwnsFence(_, _) =>
  }

  /** With one configured limit, no more batches than it are ever leased at once. */
  lemma {:induction false} LeasesStayBounded(ts: seq<Tables>, evs: seq<Event>, maxConcurrent: int, i: int)
    requires Run(ts, evs) && 0 <= i < |ts|
    requires |LeasedIds(ts[0])| <= Cap(maxConcurrent)
    requires forall k | 0 <= k < |evs| && evs[k].Claim? :: evs[k].maxConcurrent <= maxConcurrent
    ensures |LeasedIds(ts[i])| <= Cap(maxConcurrent)
  {
    hide Inv, Apply, LeasedIds;
    if i > 0 {
      LeasesStayBounded(ts, evs, maxConcurrent, i - 1);
      RunKeepsInv(ts, evs, i - 1);
      StepLeases(ts[i - 1], evs[i - 1]);
    }
  }

  // ----- what a claim takes -----

  /** A claim passes over a candidate only because its batch is full, or because the revision
      is invalid or the item is already unfinished in some batch. */
  lemma {:induction false} ClaimIsWorkConserving(t: Tables, id: int, maxItems: int, cs: seq<Candidate>, c: Candidate)
    requires Keyed(t) && id in t.batches && c in cs && c.revision >= 1
    requires forall s | s in t.members && s.batch == id :: t.members[s].Open()
    ensures var u := Fill(t, id, maxItems, cs);
            |OpenSlots(u, id)| >= maxItems || Held(u, c.item)
    decreases |cs|
  {
    if |OpenSlots(t, id)| < maxItems {
      var v := ClaimOne(t, id, cs[0]);
      ClaimOneKeepsKeyed(t, id, cs[0]);
      ClaimOneEvolves(t, id, cs[0]);
      assert forall s | s in v.members && s.batch == id :: v.members[s].Open();
      if c in cs[1..] {
        ClaimIsWorkConserving(v, id, maxItems, cs[1..], c);
      } else {
        CandidateIsHeld(t, id, c);
        FillEvolves(v, id, maxItems, cs[1..]);
        var s :| s in v.members && s.item == c.item && v.members[s].Open();
        assert s in Fill(v, id, maxItems, cs[1..]).members;
      }
    }
  }

  lemma CandidateIsHeld(t: Tables, id: int, c: Candidate)
    requires Keyed(t) && c.revision >= 1
    requires forall s | s in t.members && s.batch == id :: t.members[s].Open()
    ensures Held(ClaimOne(t, id, c), c.item)
  {
    var u := ClaimOne(t, id, c);
    if !Held(t, c.item) {
      var slot := Slot(id, c.item);
      assert slot !in t.members;
      assert NextGeneration(t, c.item) >= 1;
      assert slot in u.members && u.members[slot].Open();
    } else {
      var s :| s in t.members && s.item == c.item && t.members[s].Open();
      assert s in u.members && u.members[s].Open();
    }
  }

  // ----- retrying a completion -----

  /** A worker may repeat a completion that closed its batch: the retry is granted, hands
      nothing to the callback and changes nothing but leases that have run out meanwhile. */
  lemma CompletionRetryIsNoOp(t: Tables, ev: Event, again: Event)
    requires Inv(t) && ev.Complete? && again.Complete?
    requires again.id == ev.id && again.owner == ev.owner && again.completions == ev.completions
    requires Apply(t, ev).reply == Granted(ev.id) && !Apply(t, ev).tables.batches[ev.id].state.Leased?
    requires forall c | c in ev.completions :: Matches(Reclaim(t, ev.now), ev.id, c.fence)
    ensures Apply(Apply(t, ev).tables, again) ==
            Effect(Reclaim(Apply(t, ev).tables, again.now), Granted(ev.id), [])
  {
    hide Inv, Finish, Acceptable, Calmer, Reclaim;
    var r := Reclaim(t, ev.now);
    var u := Apply(t, ev).tables;
    var v := Reclaim(u, again.now);
    FinishIsCalm(r, ev);
    FinishBatches(r, ev);
    ReclaimIsCalm(u, again.now);
    ReclaimBatch(u, again.now, ev.id);
    forall c | c in ev.completions ensures Matches(v, ev.id, c.fence) {
      CalmKeepsMatch(r, u, ev.id, c.fence) by { if u == r { CalmItself(r); } }
      CalmKeepsMatch(u, v, ev.id, c.fence);
    }
  }

  lemma CalmKeepsMatch(t: Tables, u: Tables, id: int, f: Fence)
    requires Calmer(t, u) && Matches(t, id, f)
    ensures Matches(u, id, f)
  {
  }

  // ----- cleanup -----

  /** Cleanup deletes the oldest finished batches first: whatever it leaves is younger. */
  lemma CleanupTakesTheOldest(t: Tables, cutoff: int, limit: int, deleted: int, kept: int)
    requires deleted in VictimIds(t, cutoff, limit)
    requires kept in StaleIds(t, cutoff) && kept !in VictimIds(t, cutoff, limit)
    ensures deleted in StaleIds(t, cutoff)
    ensures var d, k := t.batches[deleted].completedAt.value, t.batches[kept].completedAt.value;
            d < k || (d == k && deleted < kept)
  {
    VictimsAreStale(t, cutoff, limit);
    LimitKeepsTheLeast(Ages(t, cutoff), limit, deleted, kept);
  }

  /** It takes as many as its limit allows, removes their memberships with them, and reports
      exactly how many it took and how many are left. */
  lemma CleanupIsExact(t0: Tables, ev: Event)
    requires ev.Stats? && ev.limit >= 0
    ensures var stale := |StaleIds(Reclaim(t0, ev.now), ev.now - ev.ttl)|;
            var taken := if ev.limit < stale then ev.limit else stale;
            StatsTx(t0, ev).reply == Cleaned(taken, stale - taken)
  {
    hide Reclaim, Victims, Sorted, Limit;
    var t := Reclaim(t0, ev.now);
    var cutoff := ev.now - ev.ttl;
    var ids := VictimIds(t, cutoff, ev.limit);
    VictimsAreStale(t, cutoff, ev.limit);
    VictimCount(t, cutoff, ev.limit);
    var u := Delete(t, ids);
    StaleAfterDelete(t, cutoff, ids);
    assert ids <= StaleIds(t, cutoff);
    assert |StaleIds(t, cutoff) - ids| == |StaleIds(t, cutoff)| - |ids| by {
      assert StaleIds(t, cutoff) == (StaleIds(t, cutoff) - ids) + ids;
    }
  }

  lemma VictimCount(t: Tables, cutoff: int, limit: int)
    requires limit >= 0
    ensures |Victims(t, cutoff, limit)| == |VictimIds(t, cutoff, limit)|
    ensures |Victims(t, cutoff, limit)| == if limit < |StaleIds(t, cutoff)| then limit else |StaleIds(t, cutoff)|
  {
    hide Sorted, Limit;
    SortedHasNoRepeats(Ages(t, cutoff), limit);
    assert Ages(t, cutoff).Keys == StaleIds(t, cutoff);
  }

  lemma StaleAfterDelete(t: Tables, cutoff: int, ids: set<int>)
    ensures StaleIds(Delete(t, ids), cutoff) == StaleIds(t, cutoff) - ids
  {
  }

  lemma SortedHasNoRepeats(ages: map<int, Rank>, n: int)
    requires Distinct(ages)
    ensures var page := Limit(Sorted(ages), n);
            |set x | x in page| == |page|
  {
    var page := Limit(Sorted(ages), n);
    forall i, j | 0 <= i < j < |page| ensures page[i] != page[j] {
      SortedAscends(ages, i, j);
    }
    DistinctMembers(page);
  }
}

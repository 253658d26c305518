/** Fencing over whole runs of the publication-batch store, with rows deleted and identifiers reused. */
module PublicationBatchRuns {
  import opened PublicationBatches
  import opened PublicationBatchSafety

  function Generation(t: Tables, item: string): int {
    if item in t.generations then t.generations[item] else 0
  }

  ghost predicate GenerationsGrow(t: Tables, u: Tables) {
    forall item | item in t.generations :: item in u.generations && t.generations[item] <= u.generations[item]
  }

  /** A row of `u` is either a row of `t`, at most finished since, or was granted since under
      a generation the item had never reached. */
  ghost predicate RowsEvolve(t: Tables, u: Tables) {
    forall s | s in u.members :: KeptRow(t, u, s) || FreshRow(t, u, s)
  }

  ghost predicate KeptRow(t: Tables, u: Tables, s: Slot)
    requires s in u.members
  {
    && s in t.members
    && u.members[s].generation == t.members[s].generation
    && u.members[s].revision == t.members[s].revision
    && (!t.members[s].Open() ==> u.members[s] == t.members[s])
  }

  ghost predicate FreshRow(t: Tables, u: Tables, s: Slot)
    requires s in u.members
  {
    Generation(t, s.item) < u.members[s].generation <= Generation(u, s.item)
  }

  ghost predicate Evolves(t: Tables, u: Tables) {
    GenerationsGrow(t, u) && RowsEvolve(t, u) && (forall item | item in u.generations :: u.generations[item] >= 1)
  }

  lemma EvolvesTransitive(t: Tables, u: Tables, v: Tables)
    requires Evolves(t, u) && Evolves(u, v)
    ensures Evolves(t, v)
  {
    assert forall item :: Generation(t, item) <= Generation(u, item) <= Generation(v, item);
    forall s | s in v.members ensures KeptRow(t, v, s) || FreshRow(t, v, s) {
      assert KeptRow(u, v, s) || FreshRow(u, v, s);
      if KeptRow(u, v, s) {
        assert KeptRow(t, u, s) || FreshRow(t, u, s);
      }
    }
  }

  lemma CalmEvolves(t: Tables, u: Tables)
    requires Calmer(t, u) && Keyed(t)
    ensures Evolves(t, u)
  {
    forall s | s in u.members ensures KeptRow(t, u, s) {}
  }

  lemma ClaimOneEvolves(t: Tables, id: int, c: Candidate)
    requires Keyed(t)
    ensures Evolves(t, ClaimOne(t, id, c))
    ensures forall s | s in t.members :: s in ClaimOne(t, id, c).members && ClaimOne(t, id, c).members[s] == t.members[s]
  {
    var u := ClaimOne(t, id, c);
    forall s | s in u.members ensures KeptRow(t, u, s) || FreshRow(t, u, s) {}
  }

  lemma {:induction false} FillEvolves(t: Tables, id: int, maxItems: int, cs: seq<Candidate>)
    requires Keyed(t) && id in t.batches
    ensures Evolves(t, Fill(t, id, maxItems, cs))
    ensures forall s | s in t.members :: s in Fill(t, id, maxItems, cs).members && Fill(t, id, maxItems, cs).members[s] == t.members[s]
    decreases |cs|
  {
    if cs != [] && |OpenSlots(t, id)| < maxItems {
      hide ClaimOne, Evolves, Keyed, OpenSlots;
      var u := ClaimOne(t, id, cs[0]);
      ClaimOneEvolves(t, id, cs[0]);
      ClaimOneKeepsKeyed(t, id, cs[0]);
      ClaimOneSlots(t, id, cs[0], id);
      FillEvolves(u, id, maxItems, cs[1..]);
      EvolvesTransitive(t, u, Fill(u, id, maxItems, cs[1..]));
    } else {
      CalmEvolves(t, t);
    }
  }

  lemma SameMembersEvolve(t: Tables, u: Tables)
    requires u.generations == t.generations && Keyed(t)
    requires forall s | s in u.members :: s in t.members && u.members[s] == t.members[s]
    ensures Evolves(t, u)
  {
    forall s | s in u.members ensures KeptRow(t, u, s) {}
  }

  lemma ClaimEvolves(t: Tables, ev: Event)
    requires Inv(t) && ev.Claim?
    ensures Evolves(t, ClaimTx(t, ev).tables)
  {
    hide Inv, Evolves, Reclaim, Fill, Filling, Keyed, Calmer;
    assert Keyed(t) by { InvIsKeyed(t); }
    var r := Reclaim(t, ev.now);
    ReclaimKeepsInv(t, ev.now);
    ReclaimIsCalm(t, ev.now);
    CalmEvolves(t, r);
    CalmEvolves(t, t) by { CalmItself(t); }
    if ev.id !in r.batches && |LeasedIds(r)| < Cap(ev.maxConcurrent) && ev.maxItems >= 1 {
      var begun := Begun(r, ev);
      BegunIsFilling(r, ev);
      assert Keyed(begun) by { FillingIsKeyed(begun, ev.id); }
      assert Keyed(r) by { InvIsKeyed(r); }
      SameMembersEvolve(r, begun);
      FillEvolves(begun, ev.id, ev.maxItems, ev.candidates);
      var filled := Fill(begun, ev.id, ev.maxItems, ev.candidates);
      EvolvesTransitive(t, r, begun);
      EvolvesTransitive(t, begun, filled);
      FillKeepsFilling(begun, ev.id, ev.candidates);
      assert Keyed(filled) by { FillingIsKeyed(filled, ev.id); }
      SameMembersEvolve(filled, filled.(batches := filled.batches - {ev.id}));
      EvolvesTransitive(t, filled, filled.(batches := filled.batches - {ev.id}));
    }
  }

  lemma CalmItself(t: Tables)
    ensures Calmer(t, t)
  {
  }

  lemma InvIsKeyed(t: Tables)
    requires Inv(t)
    ensures Keyed(t) && Fenced(t) && OneFence(t)
  {
  }

  lemma FillingIsKeyed(t: Tables, id: int)
    requires Filling(t, id)
    ensures Keyed(t)
  {
  }

  lemma StepEvolves(t: Tables, ev: Event)
    requires Inv(t)
    ensures Evolves(t, Apply(t, ev).tables)
  {
    hide Inv, Evolves, Reclaim, ClaimTx, Finish, Reseed, Calmer, VictimIds, Keyed;
    InvIsKeyed(t);
    CalmItself(t);
    CalmEvolves(t, t);
    match ev
    case Claim(_, _, _, _, _, _, _) => ClaimEvolves(t, ev);
    case Fetch(_, _, now) => ReclaimEvolves(t, now);
    case Heartbeat(_, _, _, _, now) =>
      ReclaimEvolves(t, now);
      var r := Reclaim(t, now);
      var u := HeartbeatTx(t, ev).tables;
      SameMembersEvolve(r, u);
      EvolvesTransitive(t, r, u);
    case OwnsFence(_, now) => ReclaimEvolves(t, now);
    case Complete(id, _, _, now, _, _, _) =>
      ReclaimEvolves(t, now);
      var r := Reclaim(t, now);
      if id in r.batches {
        FinishIsCalm(r, ev);
        CalmEvolves(r, Finish(r, ev));
        EvolvesTransitive(t, r, Finish(r, ev));
      }
    case Stats(now, ttl, limit) =>
      ReclaimEvolves(t, now);
      var r := Reclaim(t, now);
      var u := Delete(r, VictimIds(r, now - ttl, limit));
      SameMembersEvolve(r, u);
      EvolvesTransitive(t, r, u);
    case Restart => RestartIsSilent(t);
  }

  lemma ReclaimEvolves(t: Tables, now: int)
    requires Inv(t)
    ensures Evolves(t, Reclaim(t, now)) && Keyed(Reclaim(t, now))
  {
    hide Reclaim;
    ReclaimIsCalm(t, now);
    CalmEvolves(t, Reclaim(t, now));
    ReclaimKeepsInv(t, now);
  }

  // ----- runs -----

  ghost predicate Run(ts: seq<Tables>, evs: seq<Event>) {
    && |ts| == |evs| + 1
    && Inv(ts[0])
    && forall i | 0 <= i < |evs| :: ts[i + 1] == Apply(ts[i], evs[i]).tables
  }

  lemma {:induction false} RunKeepsInv(ts: seq<Tables>, evs: seq<Event>, i: int)
    requires Run(ts, evs) && 0 <= i < |ts|
    ensures Inv(ts[i])
  {
    hide Inv, Apply;
    if i > 0 {
      RunKeepsInv(ts, evs, i - 1);
      StepKeepsInv(ts[i - 1], evs[i - 1]);
    }
  }

  lemma {:induction false} RunEvolves(ts: seq<Tables>, evs: seq<Event>, i: int, j: int)
    requires Run(ts, evs) && 0 <= i <= j < |ts|
    ensures Evolves(ts[i], ts[j])
    decreases j
  {
    hide Inv, Apply, Evolves;
    RunKeepsInv(ts, evs, i);
    if i == j {
      InvIsKeyed(ts[i]);
      CalmItself(ts[i]);
      CalmEvolves(ts[i], ts[i]);
    } else {
      RunEvolves(ts, evs, i, j - 1);
      RunKeepsInv(ts, evs, j - 1);
      StepEvolves(ts[j - 1], evs[j - 1]);
      EvolvesTransitive(ts[i], ts[j - 1], ts[j]);
    }
  }

  /** A membership a step created: where, and under which generation. */
  datatype Grant = Grant(slot: Slot, generation: int)

  ghost function NewRows(t: Tables, u: Tables): set<Grant> {
    set s | s in u.members && (s !in t.members || t.members[s].generation != u.members[s].generation) ::
      Grant(s, u.members[s].generation)
  }

  ghost function Grants(t: Tables, ev: Event): set<Grant> {
    NewRows(t, Apply(t, ev).tables)
  }

  lemma GrantsAreFresh(t: Tables, u: Tables, g: Grant)
    requires Evolves(t, u) && g in NewRows(t, u)
    ensures g.slot in u.members && u.members[g.slot].generation == g.generation
    ensures Generation(t, g.slot.item) < g.generation <= Generation(u, g.slot.item)
  {
    var s :| s in u.members && g == Grant(s, u.members[s].generation)
             && (s !in t.members || t.members[s].generation != u.members[s].generation);
    assert KeptRow(t, u, s) || FreshRow(t, u, s);
  }

  lemma GenerationMonotone(t: Tables, u: Tables, item: string)
    requires Evolves(t, u)
    ensures Generation(t, item) <= Generation(u, item)
  {
  }

  /** No two memberships ever share an item and a claim generation: later grants of an item
      carry strictly larger generations, and one step never grants the same fence twice. */
  lemma EveryFenceIsGrantedOnce(ts: seq<Tables>, evs: seq<Event>, i: int, j: int, g: Grant, h: Grant)
    requires Run(ts, evs) && 0 <= i <= j < |evs|
    requires g in Grants(ts[i], evs[i]) && h in Grants(ts[j], evs[j]) && g.slot.item == h.slot.item
    ensures i < j ==> g.generation < h.generation
    ensures i == j && g.generation == h.generation ==> g == h
  {
    hide Inv, Apply, Evolves, OneFence, Keyed, Fenced, NewRows;
    RunKeepsInv(ts, evs, i);
    RunKeepsInv(ts, evs, j);
    StepEvolves(ts[i], evs[i]);
    StepEvolves(ts[j], evs[j]);
    GrantsAreFresh(ts[i], ts[i + 1], g);
    GrantsAreFresh(ts[j], ts[j + 1], h);
    if i < j {
      RunEvolves(ts, evs, i + 1, j);
      GenerationMonotone(ts[i + 1], ts[j], g.slot.item);
    } else {
      RunKeepsInv(ts, evs, i + 1);
      InvIsKeyed(ts[i + 1]);
      OneFenceApplies(ts[i + 1], g.slot, h.slot);
    }
  }

  lemma OneFenceApplies(t: Tables, s: Slot, u: Slot)
    requires OneFence(t) && s in t.members && u in t.members && s.item == u.item
    ensures t.members[s].generation == t.members[u].generation ==> s == u
  {
  }

  // ----- completions -----

  ghost predicate OpenUnder(t: Tables, item: string, generation: int) {
    exists s | s in t.members :: s.item == item && t.members[s].generation == generation && t.members[s].Open()
  }

  /** The generation was reached, and no lease under it is still running. */
  ghost predicate Spent(t: Tables, item: string, generation: int) {
    generation <= Generation(t, item) && !OpenUnder(t, item, generation)
  }

  lemma SpentStays(t: Tables, u: Tables, item: string, generation: int)
    requires Evolves(t, u) && Spent(t, item, generation)
    ensures Spent(u, item, generation)
  {
    forall s | s in u.members && s.item == item && u.members[s].generation == generation
      ensures !u.members[s].Open()
    {
      assert KeptRow(t, u, s) || FreshRow(t, u, s);
    }
  }

  lemma {:induction false} SettleClosesAccepted(t: Tables, id: int, cs: seq<Completion>, c: Completion)
    requires c in cs && Matches(t, id, c.fence)
    ensures var u := Settle(t, id, cs);
            Matches(u, id, c.fence) && !u.members[Slot(id, c.fence.item)].Open()
    decreases |cs|
  {
    var v := SettleOne(t, id, cs[0]);
    assert Settle(t, id, cs) == Settle(v, id, cs[1..]);
    assert Matches(v, id, c.fence);
    if c in cs[1..] {
      SettleClosesAccepted(v, id, cs[1..], c);
    } else {
      assert !v.members[Slot(id, c.fence.item)].Open();
      SettleIsCalm(v, id, cs[1..]);
    }
  }

  /** A completion handed to the callback belonged to a running lease, which it ended. */
  lemma HandedWasOpenAndIsSpent(t0: Tables, ev: Event, c: Completion)
    requires Inv(t0) && c in Apply(t0, ev).handed
    ensures OpenUnder(t0, c.fence.item, c.fence.generation)
    ensures Spent(Apply(t0, ev).tables, c.fence.item, c.fence.generation)
  {
    assert ev.Complete?;
    var t := Reclaim(t0, ev.now);
    var s := Slot(ev.id, c.fence.item);
    hide Inv, Reclaim, Settle, Acceptable, Keyed, Fenced, OneFence;
    assert Apply(t0, ev).handed == Acceptable(t, ev.id, ev.completions);
    assert MatchesOpen(t, ev.id, c.fence);
    ReclaimIsCalm(t0, ev.now);
    assert s in t0.members && t0.members[s].generation == c.fence.generation && t0.members[s].Open();
    var u := Finish(t, ev);
    SettleClosesAccepted(t, ev.id, Acceptable(t, ev.id, ev.completions), c);
    assert s in u.members && u.members[s].generation == c.fence.generation && !u.members[s].Open();
    CompleteKeepsInv(t0, ev);
    InvIsKeyed(u);
    forall v | v in u.members && v.item == c.fence.item && u.members[v].generation == c.fence.generation
      ensures !u.members[v].Open()
    {
      OneFenceApplies(u, s, v);
    }
    FencedApplies(u, s);
  }

  lemma FencedApplies(t: Tables, s: Slot)
    requires Fenced(t) && s in t.members
    ensures t.members[s].generation <= Generation(t, s.item)
  {
  }

  /** Two committed completions never hand over the same fence. */
  lemma NoFenceCompletesTwice(ts: seq<Tables>, evs: seq<Event>, i: int, j: int, c: Completion, d: Completion)
    requires Run(ts, evs) && 0 <= i < j < |evs|
    requires c in Apply(ts[i], evs[i]).handed && d in Apply(ts[j], evs[j]).handed
    ensures c.fence.item != d.fence.item || c.fence.generation != d.fence.generation
  {
    hide Inv, Apply, Evolves, Spent, OpenUnder;
    RunKeepsInv(ts, evs, i);
    RunKeepsInv(ts, evs, j);
    HandedWasOpenAndIsSpent(ts[i], evs[i], c);
    HandedWasOpenAndIsSpent(ts[j], evs[j], d);
    RunEvolves(ts, evs, i + 1, j);
    SpentStays(ts[i + 1], ts[j], c.fence.item, c.fence.generation);
    SpentIsNotOpen(ts[j], c.fence.item, c.fence.generation);
  }

  lemma SpentIsNotOpen(t: Tables, item: string, generation: int)
    requires Spent(t, item, generation)
    ensures !OpenUnder(t, item, generation)
  {
  }

  /** Once the lease a fence was granted under has ended (completed, expired, or deleted by
      cleanup), the fence owns nothing and completes nothing in any later state, whatever
      batch identifiers have been reused in between. */
  lemma EndedFenceStaysEnded(ts: seq<Tables>, evs: seq<Event>, i: int, j: int, f: Fence, now: int)
    requires Run(ts, evs) && 0 <= i <= j < |evs|
    requires Spent(ts[i], f.item, f.generation)
    ensures !OwnsActive(Reclaim(ts[j], now), f)
    ensures forall c | c in Apply(ts[j], evs[j]).handed :: c.fence.item != f.item || c.fence.generation != f.generation
  {
    hide Inv, Apply, Evolves, Spent, Reclaim, Calmer;
    RunEvolves(ts, evs, i, j);
    RunKeepsInv(ts, evs, j);
    SpentStays(ts[i], ts[j], f.item, f.generation);
    SpentIsNotOpen(ts[j], f.item, f.generation);
    forall c | c in Apply(ts[j], evs[j]).handed
      ensures c.fence.item != f.item || c.fence.generation != f.generation
    {
      HandedWasOpenAndIsSpent(ts[j], evs[j], c);
    }
    var r := Reclaim(ts[j], now);
    ReclaimEvolves(ts[j], now);
    SpentStays(ts[j], r, f.item, f.generation);
    SpentIsNotOpen(r, f.item, f.generation);
  }
}

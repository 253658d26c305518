/** What every publication-batch transaction keeps. */
module PublicationBatchSafety {
  import opened Ordering
  import opened PublicationBatches

  // ----- the invariant -----

  ghost predicate Keyed(t: Tables) {
    && (forall s | s in t.members :: s.batch in t.batches)
    && (forall item | item in t.generations :: t.generations[item] >= 1)
  }

  /** The generation table outlives the rows it fences. */
  ghost predicate Fenced(t: Tables) {
    forall s | s in t.members :: s.item in t.generations && 1 <= t.members[s].generation <= t.generations[s.item]
  }

  /** An item is unfinished in at most one batch. */
  ghost predicate OneHolder(t: Tables) {
    forall s, u | s in t.members && u in t.members && s.item == u.item && t.members[s].Open() && t.members[u].Open() :: s == u
  }

  ghost predicate OneFence(t: Tables) {
    forall s, u | s in t.members && u in t.members && s.item == u.item && t.members[s].generation == t.members[u].generation :: s == u
  }

  /** A batch is leased exactly while it has an unfinished membership. */
  ghost predicate Status(t: Tables, except: set<int>) {
    forall id | id in t.batches && id !in except :: t.batches[id].state.Leased? <==> OpenSlots(t, id) != {}
  }

  ghost predicate Sized(t: Tables) {
    forall id | id in t.batches :: |Slots(t, id)| <= t.batches[id].size
  }

  ghost predicate Stamped(t: Tables) {
    forall id | id in t.batches :: t.batches[id].state.Leased? <==> t.batches[id].completedAt.None?
  }

  ghost predicate Inv(t: Tables) {
    Keyed(t) && Fenced(t) && OneHolder(t) && OneFence(t) && Status(t, {}) && Sized(t) && Stamped(t)
  }

  // ----- transactions that only finish memberships -----

  /** The same rows, with some unfinished memberships finished. */
  ghost predicate Calmer(t: Tables, u: Tables) {
    && u.members.Keys == t.members.Keys
    && u.batches.Keys == t.batches.Keys
    && u.generations == t.generations
    && (forall s | s in t.members :: u.members[s].generation == t.members[s].generation && u.members[s].revision == t.members[s].revision)
    && (forall s | s in t.members && !t.members[s].Open() :: u.members[s] == t.members[s])
  }

  lemma CalmerKeepsHolder(t: Tables, u: Tables)
    requires OneHolder(t) && Calmer(t, u)
    ensures OneHolder(u)
  {
  }

  lemma CalmerKeepsFence(t: Tables, u: Tables)
    requires OneFence(t) && Calmer(t, u)
    ensures OneFence(u)
  {
  }

  lemma CalmerKeepsKeyed(t: Tables, u: Tables)
    requires Keyed(t) && Fenced(t) && Calmer(t, u)
    ensures Keyed(u) && Fenced(u)
  {
  }

  lemma CalmerKeepsSlots(t: Tables, u: Tables, id: int)
    requires Calmer(t, u)
    ensures Slots(u, id) == Slots(t, id)
  {
  }

  lemma CalmerKeepsSized(t: Tables, u: Tables)
    requires Sized(t) && Calmer(t, u)
    requires forall id | id in t.batches :: u.batches[id].size == t.batches[id].size
    ensures Sized(u)
  {
    hide Calmer;
    forall id | id in u.batches ensures |Slots(u, id)| <= u.batches[id].size {
      assert id in t.batches by { CalmerSameBatches(t, u); }
      CalmerKeepsSlots(t, u, id);
    }
  }

  lemma CalmerSameBatches(t: Tables, u: Tables)
    requires Calmer(t, u)
    ensures u.batches.Keys == t.batches.Keys && u.members.Keys == t.members.Keys
  {
  }

  // ----- reclaim -----

  lemma ReclaimIsCalm(t: Tables, now: int)
    ensures Calmer(t, Reclaim(t, now))
  {
  }

  lemma ReclaimBatch(t: Tables, now: int, id: int)
    requires id in t.batches
    ensures id in Reclaim(t, now).batches
    ensures Reclaim(t, now).batches[id] == if Due(t.batches[id], now) then ExpireBatch(t.batches[id], now) else t.batches[id]
    ensures OpenSlots(Reclaim(t, now), id) == if Due(t.batches[id], now) then {} else OpenSlots(t, id)
  {
    var r := Reclaim(t, now);
    assert forall s | s in t.members && s.batch == id ::
        r.members[s] == if Due(t.batches[id], now) then ExpireMember(t.members[s]) else t.members[s];
  }

  lemma ReclaimKeepsInv(t: Tables, now: int)
    requires Inv(t)
    ensures Inv(Reclaim(t, now))
  {
    hide Keyed, Fenced, OneHolder, OneFence, Calmer, Reclaim, Slots, OpenSlots;
    var r := Reclaim(t, now);
    ReclaimIsCalm(t, now);
    CalmerKeepsKeyed(t, r);
    CalmerKeepsHolder(t, r);
    CalmerKeepsFence(t, r);
    CalmerSameBatches(t, r);
    forall id | id in t.batches
      ensures id in r.batches
      ensures r.batches[id] == if Due(t.batches[id], now) then ExpireBatch(t.batches[id], now) else t.batches[id]
      ensures OpenSlots(r, id) == if Due(t.batches[id], now) then {} else OpenSlots(t, id)
      ensures Slots(r, id) == Slots(t, id)
    {
      ReclaimBatch(t, now, id);
      CalmerKeepsSlots(t, r, id);
    }
  }

  // ----- claim -----

  /** While a claim fills its batch, that batch may still be empty. */
  ghost predicate Filling(t: Tables, id: int) {
    && Keyed(t) && Fenced(t) && OneHolder(t) && OneFence(t) && Status(t, {id}) && Sized(t) && Stamped(t)
    && id in t.batches && t.batches[id].state.Leased?
    && Slots(t, id) == OpenSlots(t, id)
  }

  lemma ClaimOneKeepsKeyed(t: Tables, id: int, c: Candidate)
    requires Keyed(t) && id in t.batches
    ensures Keyed(ClaimOne(t, id, c))
  {
  }

  lemma ClaimOneKeepsFenced(t: Tables, id: int, c: Candidate)
    requires Fenced(t)
    ensures Fenced(ClaimOne(t, id, c))
  {
  }

  lemma ClaimOneKeepsHolder(t: Tables, id: int, c: Candidate)
    requires OneHolder(t)
    ensures OneHolder(ClaimOne(t, id, c))
  {
  }

  lemma ClaimOneKeepsFence(t: Tables, id: int, c: Candidate)
    requires OneFence(t) && Fenced(t)
    ensures OneFence(ClaimOne(t, id, c))
  {
    var u := ClaimOne(t, id, c);
    assert forall s | s in t.members && s.item == c.item :: t.members[s].generation < NextGeneration(t, c.item);
  }

  lemma ClaimOneSlots(t: Tables, id: int, c: Candidate, other: int)
    ensures var u := ClaimOne(t, id, c);
            && u.batches == t.batches
            && (other != id ==> Slots(u, other) == Slots(t, other) && OpenSlots(u, other) == OpenSlots(t, other))
            && (Slots(t, id) == OpenSlots(t, id) ==> Slots(u, id) == OpenSlots(u, id) && |Slots(u, id)| <= |Slots(t, id)| + 1)
  {
    var u := ClaimOne(t, id, c);
    var slot := Slot(id, c.item);
    if u.members != t.members {
      assert u.members == t.members[slot := u.members[slot]];
      assert Slots(u, id) == Slots(t, id) + {slot};
      if Slots(t, id) == OpenSlots(t, id) {
        assert OpenSlots(u, id) == OpenSlots(t, id) + {slot};
      }
    } else {
      assert Slots(u, id) == Slots(t, id) && OpenSlots(u, id) == OpenSlots(t, id);
    }
    assert other != id ==> forall s | s in u.members && s.batch == other :: s != slot;
  }

  lemma ClaimOneKeepsFilling(t: Tables, id: int, c: Candidate)
    requires Filling(t, id) && |Slots(t, id)| < t.batches[id].size
    ensures Filling(ClaimOne(t, id, c), id)
    ensures ClaimOne(t, id, c).batches == t.batches
  {
    hide Keyed, Fenced, OneHolder, OneFence, ClaimOne, Slots, OpenSlots;
    ClaimOneKeepsKeyed(t, id, c);
    ClaimOneKeepsFenced(t, id, c);
    ClaimOneKeepsHolder(t, id, c);
    ClaimOneKeepsFence(t, id, c);
    ClaimOneSlots(t, id, c, id);
    var u := ClaimOne(t, id, c);
    forall other | other in t.batches && other != id
      ensures Slots(u, other) == Slots(t, other) && OpenSlots(u, other) == OpenSlots(t, other)
    {
      ClaimOneSlots(t, id, c, other);
    }
  }

  lemma {:induction false} FillKeepsFilling(t: Tables, id: int, cs: seq<Candidate>)
    requires Filling(t, id)
    ensures var u := Fill(t, id, t.batches[id].size, cs); Filling(u, id) && u.batches == t.batches
    decreases |cs|
  {
    hide Filling, ClaimOne, Slots, OpenSlots;
    FillingFacts(t, id);
    if cs != [] && |OpenSlots(t, id)| < t.batches[id].size {
      ClaimOneKeepsFilling(t, id, cs[0]);
      FillKeepsFilling(ClaimOne(t, id, cs[0]), id, cs[1..]);
    }
  }

  lemma FillingFacts(t: Tables, id: int)
    requires Filling(t, id)
    ensures id in t.batches && Slots(t, id) == OpenSlots(t, id)
  {
  }

  ghost function Begun(r: Tables, ev: Event): Tables
    requires ev.Claim?
  {
    r.(batches := r.batches[ev.id := Batch(Leased, ev.owner, ev.expiresAt, ev.maxItems, ev.now, None, None, None)])
  }

  lemma BegunIsFilling(r: Tables, ev: Event)
    requires Inv(r) && ev.Claim? && ev.id !in r.batches && ev.maxItems >= 1
    ensures Filling(Begun(r, ev), ev.id)
  {
    hide Fenced, OneFence, OneHolder;
    var b := Begun(r, ev);
    assert Fenced(b) && OneHolder(b) && OneFence(b) by { SameRows(r, b); }
    assert Slots(b, ev.id) == {} && OpenSlots(b, ev.id) == {};
    forall id | id in r.batches ensures Slots(b, id) == Slots(r, id) && OpenSlots(b, id) == OpenSlots(r, id) {}
  }

  lemma SameRows(t: Tables, u: Tables)
    requires Fenced(t) && OneHolder(t) && OneFence(t) && u.members == t.members && u.generations == t.generations
    ensures Fenced(u) && OneHolder(u) && OneFence(u)
  {
  }

  lemma FillingIsDone(f: Tables, id: int)
    requires Filling(f, id)
    ensures Slots(f, id) != {} ==> Inv(f)
    ensures Slots(f, id) == {} ==> Inv(f.(batches := f.batches - {id}))
  {
    hide Fenced, OneFence, OneHolder;
    if Slots(f, id) == {} {
      var d := f.(batches := f.batches - {id});
      SameRows(f, d);
      assert forall s | s in f.members :: s in Slots(f, s.batch);
      forall other | other in d.batches
        ensures Slots(d, other) == Slots(f, other) && OpenSlots(d, other) == OpenSlots(f, other) {}
    }
  }

  lemma ClaimKeepsInv(t: Tables, ev: Event)
    requires Inv(t) && ev.Claim?
    ensures Inv(ClaimTx(t, ev).tables)
  {
    hide Inv, Filling, Reclaim, Fill;
    ReclaimKeepsInv(t, ev.now);
    var r := Reclaim(t, ev.now);
    if ev.id !in r.batches && |LeasedIds(r)| < Cap(ev.maxConcurrent) && ev.maxItems >= 1 {
      BegunIsFilling(r, ev);
      var begun := Begun(r, ev);
      FillKeepsFilling(begun, ev.id, ev.candidates);
      FillingIsDone(Fill(begun, ev.id, ev.maxItems, ev.candidates), ev.id);
    }
  }

  // ----- completion -----

  lemma SettleOneIsCalm(t: Tables, id: int, c: Completion)
    ensures Calmer(t, SettleOne(t, id, c))
    ensures SettleOne(t, id, c).batches == t.batches
    ensures forall s | s in t.members && s.batch != id :: SettleOne(t, id, c).members[s] == t.members[s]
  {
  }

  lemma {:induction false} SettleIsCalm(t: Tables, id: int, cs: seq<Completion>)
    ensures Calmer(t, Settle(t, id, cs))
    ensures Settle(t, id, cs).batches == t.batches
    ensures forall s | s in t.members && s.batch != id :: Settle(t, id, cs).members[s] == t.members[s]
    decreases |cs|
  {
    if cs != [] {
      SettleOneIsCalm(t, id, cs[0]);
      SettleIsCalm(SettleOne(t, id, cs[0]), id, cs[1..]);
    }
  }

  lemma CalmElsewhere(t: Tables, u: Tables, id: int, other: int)
    requires Calmer(t, u) && other != id
    requires forall s | s in t.members && s.batch != id :: u.members[s] == t.members[s]
    ensures OpenSlots(u, other) == OpenSlots(t, other)
  {
  }

  lemma FinishIsCalm(t: Tables, ev: Event)
    requires ev.Complete? && ev.id in t.batches
    ensures Calmer(t, Finish(t, ev))
    ensures forall s | s in t.members && s.batch != ev.id :: Finish(t, ev).members[s] == t.members[s]
  {
    SettleIsCalm(t, ev.id, Acceptable(t, ev.id, ev.completions));
  }

  lemma FinishBatches(t: Tables, ev: Event)
    requires ev.Complete? && ev.id in t.batches
    ensures var u := Finish(t, ev);
            && (forall id | id in t.batches && id != ev.id :: u.batches[id] == t.batches[id])
            && u.batches[ev.id] == ClosedBatch(t.batches[ev.id], ev, Acceptable(t, ev.id, ev.completions), OpenSlots(u, ev.id))
  {
    hide Settle, Acceptable;
    var accepted := Acceptable(t, ev.id, ev.completions);
    SlotsOfSameRows(Settle(t, ev.id, accepted), Finish(t, ev), ev.id);
  }

  lemma FinishKeepsStatus(t: Tables, ev: Event)
    requires Status(t, {}) && Stamped(t) && ev.Complete? && ev.id in t.batches && t.batches[ev.id].state.Leased?
    ensures Status(Finish(t, ev), {}) && Stamped(Finish(t, ev))
  {
    hide Finish, Calmer, Slots, OpenSlots, Acceptable;
    FinishIsCalm(t, ev);
    FinishBatches(t, ev);
    var u := Finish(t, ev);
    CalmerSameBatches(t, u);
    forall id | id in t.batches && id != ev.id ensures OpenSlots(u, id) == OpenSlots(t, id) {
      CalmElsewhere(t, u, ev.id, id);
    }
  }

  lemma FinishKeepsInv(t: Tables, ev: Event)
    requires Inv(t) && ev.Complete? && ev.id in t.batches && t.batches[ev.id].state.Leased?
    ensures Inv(Finish(t, ev))
  {
    hide Keyed, Fenced, OneHolder, OneFence, Sized, Status, Stamped, Finish, Calmer, Acceptable;
    var u := Finish(t, ev);
    FinishIsCalm(t, ev);
    FinishBatches(t, ev);
    CalmerSameBatches(t, u);
    CalmerKeepsKeyed(t, u);
    CalmerKeepsHolder(t, u);
    CalmerKeepsFence(t, u);
    CalmerKeepsSized(t, u);
    FinishKeepsStatus(t, ev);
  }

  lemma CompleteKeepsInv(t0: Tables, ev: Event)
    requires Inv(t0) && ev.Complete?
    ensures Inv(CompleteTx(t0, ev).tables)
  {
    hide Inv, Reclaim, Finish;
    ReclaimKeepsInv(t0, ev.now);
    var t := Reclaim(t0, ev.now);
    if ev.id in t.batches && t.batches[ev.id].state.Leased? {
      FinishKeepsInv(t, ev);
    }
  }

  lemma SlotsOfSameRows(t: Tables, u: Tables, id: int)
    requires u.members == t.members
    ensures Slots(u, id) == Slots(t, id) && OpenSlots(u, id) == OpenSlots(t, id)
  {
  }

  // ----- the remaining transactions -----

  lemma HeartbeatKeepsInv(t0: Tables, ev: Event)
    requires Inv(t0) && ev.Heartbeat?
    ensures Inv(HeartbeatTx(t0, ev).tables)
  {
    hide Keyed, Fenced, OneHolder, OneFence, Reclaim, Slots, OpenSlots;
    ReclaimKeepsInv(t0, ev.now);
    var t := Reclaim(t0, ev.now);
    var u := HeartbeatTx(t0, ev).tables;
    if u != t {
      SameRows(t, u);
      assert Keyed(u) by { KeyedKeys(t, u); }
      forall id | id in t.batches ensures Slots(u, id) == Slots(t, id) && OpenSlots(u, id) == OpenSlots(t, id) {
        SlotsOfSameRows(t, u, id);
      }
    }
  }

  lemma KeyedKeys(t: Tables, u: Tables)
    requires Keyed(t) && u.batches.Keys == t.batches.Keys && u.members == t.members && u.generations == t.generations
    ensures Keyed(u)
  {
  }

  lemma DeleteKeepsHolderAndFence(t: Tables, ids: set<int>)
    requires OneHolder(t) && OneFence(t)
    ensures OneHolder(Delete(t, ids)) && OneFence(Delete(t, ids))
  {
  }

  lemma DeleteKeepsKeys(t: Tables, ids: set<int>)
    requires Keyed(t) && Fenced(t)
    ensures Keyed(Delete(t, ids)) && Fenced(Delete(t, ids))
  {
  }

  lemma DeleteKeepsInv(t: Tables, ids: set<int>)
    requires Inv(t)
    ensures Inv(Delete(t, ids))
  {
    hide Keyed, Fenced, OneHolder, OneFence;
    DeleteKeepsKeys(t, ids);
    DeleteKeepsHolderAndFence(t, ids);
    var u := Delete(t, ids);
    forall id | id in u.batches ensures Slots(u, id) == Slots(t, id) && OpenSlots(u, id) == OpenSlots(t, id) {}
  }

  lemma HighestGenerationIsHeld(t: Tables, item: string)
    requires Fenced(t) && item in t.generations && t.generations[item] >= 1
    ensures HighestGeneration(t, item) <= t.generations[item]
  {
  }

  /** Rows of an upgraded store: all of the invariant but the counters and the recorded sizes. */
  ghost predicate Upgraded(t: Tables) {
    && Keyed(t) && OneHolder(t) && OneFence(t) && Status(t, {}) && Stamped(t)
    && (forall s | s in t.members :: t.members[s].generation >= 1)
  }

  /** A reseed keeps every row and counter, and raises a counter or a size only as far as a retained
      membership needs. */
  ghost predicate Reseeded(t: Tables, u: Tables) {
    && u.members == t.members && u.batches.Keys == t.batches.Keys
    && (forall id | id in t.batches ::
          u.batches[id] == t.batches[id].(size := if t.batches[id].size < |Slots(t, id)| then |Slots(t, id)| else t.batches[id].size))
    && (forall item | item in t.generations :: item in u.generations && t.generations[item] <= u.generations[item])
    && (forall s | s in t.members :: s.item in u.generations && t.members[s].generation <= u.generations[s.item])
    && (forall item | item in u.generations ::
          || (item in t.generations && u.generations[item] == t.generations[item])
          || (exists s | s in t.members :: s.item == item && t.members[s].generation == u.generations[item]))
  }

  lemma HighestIsAMember(t: Tables, item: string)
    ensures forall s | s in t.members && s.item == item :: t.members[s].generation <= HighestGeneration(t, item)
    ensures (exists s | s in t.members :: s.item == item) ==>
              exists s | s in t.members :: s.item == item && t.members[s].generation == HighestGeneration(t, item)
  {
    var negated := set s | s in t.members && s.item == item :: -t.members[s].generation;
    var ranks := map n | n in negated :: Rank(n, 0, 0);
    assert ranks.Keys == negated;
    forall s | s in t.members && s.item == item ensures -t.members[s].generation in ranks {}
  }

  /** One counter after a reseed. */
  lemma ReseededCounter(t: Tables, item: string)
    requires Keyed(t)
    ensures var u := Reseed(t);
            && (item in u.generations <==> item in t.generations || exists s | s in t.members :: s.item == item)
            && (item in t.generations ==> t.generations[item] <= u.generations[item])
            && (forall s | s in t.members && s.item == item :: t.members[s].generation <= u.generations[item])
            && (item in u.generations ==>
                  || (item in t.generations && u.generations[item] == t.generations[item])
                  || (exists s | s in t.members :: s.item == item && t.members[s].generation == u.generations[item]))
  {
    hide HighestGeneration, Slots;
    HighestIsAMember(t, item);
    if forall s | s in t.members :: s.item != item {
      NoMemberNoGeneration(t, item);
    }
  }

  lemma ReseedIsReseeded(t: Tables)
    requires Keyed(t)
    ensures Reseeded(t, Reseed(t))
  {
    ReseededRows(t);
    hide Reseed;
    forall item
      ensures var u := Reseed(t);
              && (item in t.generations ==> item in u.generations && t.generations[item] <= u.generations[item])
              && (forall s | s in t.members && s.item == item :: item in u.generations && t.members[s].generation <= u.generations[item])
              && (item in u.generations ==>
                    || (item in t.generations && u.generations[item] == t.generations[item])
                    || (exists s | s in t.members :: s.item == item && t.members[s].generation == u.generations[item]))
    {
      ReseededCounter(t, item);
    }
  }

  lemma ReseededRows(t: Tables)
    ensures var u := Reseed(t);
            && u.members == t.members && u.batches.Keys == t.batches.Keys
            && (forall id | id in t.batches ::
                  u.batches[id] == t.batches[id].(size := if t.batches[id].size < |Slots(t, id)| then |Slots(t, id)| else t.batches[id].size))
  {
    hide HighestGeneration, Slots;
  }

  lemma NoMemberNoGeneration(t: Tables, item: string)
    requires forall s | s in t.members :: s.item != item
    ensures HighestGeneration(t, item) == 0
  {
  }

  /** Whatever counters an upgraded store has, even none, the repairs every start runs establish the
      whole invariant, fencing included, and lower no counter. */
  lemma ReseedRepairs(t: Tables)
    requires Upgraded(t)
    ensures Inv(Reseed(t))
    ensures forall item | item in t.generations :: item in Reseed(t).generations && t.generations[item] <= Reseed(t).generations[item]
  {
    hide Reseed;
    ReseedIsReseeded(t);
    var u := Reseed(t);
    ReseededKeys(t, u);
    ReseededSlots(t, u);
    hide Reseeded;
  }

  lemma ReseededKeys(t: Tables, u: Tables)
    requires Upgraded(t) && Reseeded(t, u)
    ensures Keyed(u) && Fenced(u) && OneHolder(u) && OneFence(u)
  {
    hide Slots, Status;
  }

  lemma ReseededSlots(t: Tables, u: Tables)
    requires Upgraded(t) && Reseeded(t, u)
    ensures Status(u, {}) && Stamped(u) && Sized(u)
  {
    forall id ensures Slots(u, id) == Slots(t, id) && OpenSlots(u, id) == OpenSlots(t, id) {}
    hide Slots, OpenSlots;
  }

  /** On every state the other transactions can reach, the repairs a restart runs change nothing. */
  lemma RestartIsSilent(t: Tables)
    requires Inv(t)
    ensures Reseed(t) == t
  {
    hide OneHolder, OneFence, HighestGeneration;
    var u := Reseed(t);
    assert u.batches == t.batches;
    forall item | item in t.generations ensures HighestGeneration(t, item) <= t.generations[item] {
      HighestGenerationIsHeld(t, item);
    }
    assert t.generations.Keys + (set s | s in t.members :: s.item) == t.generations.Keys;
    assert u.generations == t.generations;
  }

  lemma StepKeepsInv(t: Tables, ev: Event)
    requires Inv(t)
    ensures Inv(Apply(t, ev).tables)
  {
    hide Inv, Reclaim, ClaimTx, HeartbeatTx, CompleteTx, Reseed, Delete, Victims;
    match ev
    case Claim(_, _, _, _, _, _, _) => ClaimKeepsInv(t, ev);
    case Fetch(_, _, now) => ReclaimKeepsInv(t, now);
    case Heartbeat(_, _, _, _, _) => HeartbeatKeepsInv(t, ev);
    case OwnsFence(_, now) => ReclaimKeepsInv(t, now);
    case Complete(_, _, _, _, _, _, _) => CompleteKeepsInv(t, ev);
    case Stats(now, ttl, limit) =>
      ReclaimKeepsInv(t, now);
      DeleteKeepsInv(Reclaim(t, now), VictimIds(Reclaim(t, now), now - ttl, limit));
    case Restart => RestartIsSilent(t);
  }
}

/** What each call answers and records, told from the tables before it: who owns a fence, how far a
    heartbeat extends a lease, what a claim takes, and how memberships and batches end. */
module PublicationBatchOutcomes {
  import opened Ordering
  import opened PublicationBatches
  import opened PublicationBatchSafety
  import opened PublicationBatchRuns
  import opened PublicationBatchLeases

  /** The batch is leased and its lease has not run out. */
  ghost predicate Running(t: Tables, id: int, now: int) {
    id in t.batches && t.batches[id].state.Leased? && t.batches[id].expiresAt > now
  }

  /** The membership under a fence is unfinished in a running batch. */
  ghost predicate Owned(t: Tables, s: Slot, f: Fence, now: int) {
    && s in t.members && s.item == f.item && t.members[s] == Membership(f.revision, f.generation, None) && Running(t, s.batch, now)
  }

  // ----- leases that run out -----

  /** An outlived lease ends as expired, its unfinished memberships with it, and nothing else moves. */
  ghost predicate Expires(t: Tables, u: Tables, now: int) {
    && u.generations == t.generations && u.batches.Keys == t.batches.Keys && u.members.Keys == t.members.Keys
    && (forall id | id in t.batches ::
          u.batches[id] == if t.batches[id].state.Leased? && t.batches[id].expiresAt <= now
                           then t.batches[id].(state := Expired, completedAt := Some(now)) else t.batches[id])
    && (forall s | s in t.members ::
          u.members[s] == if t.members[s].outcome.None? && s.batch in t.batches && t.batches[s.batch].state.Leased?
                             && t.batches[s.batch].expiresAt <= now
                          then Membership(t.members[s].revision, t.members[s].generation, Some(LeaseExpired)) else t.members[s])
  }

  lemma ReclaimExpires(t: Tables, now: int)
    ensures Expires(t, Reclaim(t, now), now)
  {
  }

  lemma ReclaimedIsRunning(t: Tables, now: int, id: int)
    ensures id in Reclaim(t, now).batches && Reclaim(t, now).batches[id].state.Leased? <==> Running(t, id, now)
    ensures Running(t, id, now) ==>
              Reclaim(t, now).batches[id] == t.batches[id]
              && forall s | s in t.members && s.batch == id :: Reclaim(t, now).members[s] == t.members[s]
    ensures Reclaim(t, now).members.Keys == t.members.Keys && Reclaim(t, now).batches.Keys == t.batches.Keys
  {
  }

  // ----- fences -----

  /** A fence is owned exactly while an unfinished membership of a running batch carries it. */
  lemma OwnedExactlyWhen(t: Tables, f: Fence, now: int)
    ensures Apply(t, OwnsFence(f, now)).reply == Answer(exists s :: Owned(t, s, f, now))
  {
    hide Reclaim;
    var r := Reclaim(t, now);
    if s :| Owned(t, s, f, now) {
      ReclaimedIsRunning(t, now, s.batch);
      assert s == Slot(s.batch, f.item) && MatchesOpen(r, s.batch, f);
    }
    if OwnsActive(r, f) {
      var id :| id in r.batches && r.batches[id].state.Leased? && MatchesOpen(r, id, f);
      ReclaimedIsRunning(t, now, id);
      assert Owned(t, Slot(id, f.item), f, now);
    }
  }

  /** A heartbeat is granted exactly to the owner of a running batch who presents memberships of it,
      each once, and every unfinished one. */
  ghost predicate Renewable(t: Tables, ev: Event)
    requires ev.Heartbeat?
  {
    && Running(t, ev.id, ev.now) && t.batches[ev.id].owner == ev.owner
    && DistinctItems(ev.fences)
    && (forall f | f in ev.fences :: Slot(ev.id, f.item) in t.members && t.members[Slot(ev.id, f.item)].revision == f.revision
                                     && t.members[Slot(ev.id, f.item)].generation == f.generation)
    && (forall s | s in t.members && s.batch == ev.id && t.members[s].outcome.None? :: exists f | f in ev.fences :: f.item == s.item)
  }

  ghost predicate DistinctItems(fences: seq<Fence>) {
    forall i, j | 0 <= i < j < |fences| :: fences[i].item != fences[j].item
  }

  lemma DistinctNext(fences: seq<Fence>)
    requires fences != []
    ensures var n := |fences| - 1;
            DistinctItems(fences) <==> DistinctItems(fences[..n]) && fences[n].item !in Items(fences[..n])
  {
    var n := |fences| - 1;
    var init := fences[..n];
    assert forall i | 0 <= i < n :: init[i] == fences[i] && init[i] in init;
    if fences[n].item in Items(init) {
      var f :| f in init && f.item == fences[n].item;
      var i :| 0 <= i < n && init[i] == f;
      assert fences[i].item == fences[n].item;
    }
  }

  lemma {:induction false} ItemsCount(fences: seq<Fence>)
    ensures |Items(fences)| <= |fences|
    ensures |Items(fences)| == |fences| <==> DistinctItems(fences)
  {
    hide Items, DistinctItems;
    if fences == [] {
      assert Items(fences) == {} && DistinctItems(fences) by { NoItems(); }
    } else {
      var init := fences[..|fences| - 1];
      ItemsCount(init);
      LastItem(fences);
      DistinctNext(fences);
    }
  }

  lemma NoItems()
    ensures Items([]) == {} && DistinctItems([])
  {
  }

  lemma LastItem(fences: seq<Fence>)
    requires fences != []
    ensures Items(fences) == Items(fences[..|fences| - 1]) + {fences[|fences| - 1].item}
  {
    var n := |fences| - 1;
    forall f | f in fences ensures f in fences[..n] || f == fences[n] {
      var i :| 0 <= i < |fences| && fences[i] == f;
      if i < n { assert fences[..n][i] == f; }
    }
  }

  lemma RenewableIsAccepted(t: Tables, ev: Event)
    requires ev.Heartbeat?
    ensures HeartbeatAccepted(Reclaim(t, ev.now), ev.id, ev.owner, ev.fences) <==> Renewable(t, ev)
  {
    hide Reclaim, Items, DistinctItems;
    var r := Reclaim(t, ev.now);
    ReclaimedIsRunning(t, ev.now, ev.id);
    ItemsCount(ev.fences);
    assert forall item :: item in Items(ev.fences) <==> exists f | f in ev.fences :: f.item == item by { ItemsAre(ev.fences); }
    if Running(t, ev.id, ev.now) {
      forall s | s in t.members && s.batch == ev.id ensures r.members[s] == t.members[s] {}
      forall f | f in ev.fences ensures Matches(r, ev.id, f) == Matches(t, ev.id, f) {}
      assert OpenSlots(r, ev.id) == set s | s in t.members && s.batch == ev.id && t.members[s].outcome.None?;
    }
  }

  lemma ItemsAre(fences: seq<Fence>)
    ensures forall item :: item in Items(fences) <==> exists f | f in fences :: f.item == item
  {
  }

  /** A granted heartbeat extends the lease to the time asked for, or leaves a later end; it ends the
      leases that have run out, and changes nothing else. */
  lemma HeartbeatIsExact(t: Tables, ev: Event)
    requires ev.Heartbeat?
    ensures var e := Apply(t, ev);
            && e.reply == (if Renewable(t, ev) then Granted(ev.id) else Nothing) && e.handed == []
            && e.tables.members == Reclaim(t, ev.now).members && e.tables.generations == t.generations
            && e.tables.batches == if Renewable(t, ev)
               then Reclaim(t, ev.now).batches[ev.id := t.batches[ev.id].(expiresAt := Max(t.batches[ev.id].expiresAt, ev.expiresAt))]
               else Reclaim(t, ev.now).batches
  {
    hide Reclaim, HeartbeatAccepted;
    RenewableIsAccepted(t, ev);
    if Renewable(t, ev) { ReclaimedIsRunning(t, ev.now, ev.id); }
    assert Reclaim(t, ev.now).generations == t.generations by { ReclaimExpires(t, ev.now); }
  }

  /** A fetch answers the owner of a batch that is running or completed. */
  lemma FetchIsExact(t: Tables, ev: Event)
    requires ev.Fetch?
    ensures var e := Apply(t, ev);
            && Expires(t, e.tables, ev.now) && e.handed == []
            && e.reply == if ev.id in t.batches && t.batches[ev.id].owner == ev.owner
                             && (Running(t, ev.id, ev.now) || t.batches[ev.id].state.Completed?)
                          then Granted(ev.id) else Nothing
  {
  }

  // ----- completions -----

  /** The first completion under the fence, if there is one. */
  function FirstFor(cs: seq<Completion>, f: Fence): Option<Outcome> {
    if cs == [] then None else if cs[0].fence == f then Some(cs[0].outcome) else FirstFor(cs[1..], f)
  }

  function FenceOf(s: Slot, m: Membership): Fence { Fence(s.item, m.revision, m.generation) }

  /** The memberships of the batch end by the first completion under their fence; the rest stay. */
  ghost predicate Settles(t: Tables, u: Tables, id: int, cs: seq<Completion>) {
    && u.members.Keys == t.members.Keys
    && (forall s | s in t.members ::
          var m := t.members[s];
          u.members[s] == if s.batch == id && m.outcome.None? && FirstFor(cs, FenceOf(s, m)).Some?
                          then Membership(m.revision, m.generation, FirstFor(cs, FenceOf(s, m))) else m)
  }

  lemma {:induction false} SettleSettles(t: Tables, id: int, cs: seq<Completion>)
    ensures Settles(t, Settle(t, id, cs), id, cs)
    decreases |cs|
  {
    if cs != [] {
      SettleSettles(SettleOne(t, id, cs[0]), id, cs[1..]);
    }
  }

  lemma {:induction false} AcceptableKeepsFirst(t: Tables, id: int, cs: seq<Completion>, s: Slot)
    requires s in t.members && s.batch == id && t.members[s].outcome.None?
    ensures FirstFor(Acceptable(t, id, cs), FenceOf(s, t.members[s])) == FirstFor(cs, FenceOf(s, t.members[s]))
    decreases |cs|
  {
    if cs != [] {
      AcceptableKeepsFirst(t, id, cs[1..], s);
      assert s == Slot(id, s.item);
      assert cs == [cs[0]] + cs[1..];
    }
  }

  /** The completions whose fence is an unfinished membership of the batch, as often as presented. */
  lemma {:induction false} AcceptableIsExact(t: Tables, id: int, cs: seq<Completion>, c: Completion)
    ensures var s := Slot(id, c.fence.item);
            multiset(Acceptable(t, id, cs))[c] ==
            if s in t.members && t.members[s] == Membership(c.fence.revision, c.fence.generation, None) then multiset(cs)[c] else 0
    decreases |cs|
  {
    if cs != [] {
      AcceptableIsExact(t, id, cs[1..], c);
      assert cs == [cs[0]] + cs[1..];
    }
  }

  lemma AcceptedSettle(t: Tables, id: int, cs: seq<Completion>)
    ensures Settles(t, Settle(t, id, Acceptable(t, id, cs)), id, cs)
  {
    hide Settle, Acceptable, FirstFor;
    SettleSettles(t, id, Acceptable(t, id, cs));
    forall s | s in t.members && s.batch == id && t.members[s].outcome.None?
      ensures FirstFor(Acceptable(t, id, cs), FenceOf(s, t.members[s])) == FirstFor(cs, FenceOf(s, t.members[s]))
    {
      AcceptableKeepsFirst(t, id, cs, s);
    }
  }

  /** A completion of a running batch by its owner. */
  ghost predicate Completing(t: Tables, ev: Event)
    requires ev.Complete?
  {
    Running(t, ev.id, ev.now) && t.batches[ev.id].owner == ev.owner && !ev.callbackThrows
  }

  /** What a completion hands over is what it settles: each unfinished membership it names ends with
      the outcome first reported for it, every other keeps its own, and the batch is completed exactly
      when none is left. Its commit and its failure are kept once set, and other batches are untouched
      but for leases that have run out. */
  lemma CompletionIsExact(t: Tables, ev: Event)
    requires ev.Complete? && Completing(t, ev)
    ensures var e := Apply(t, ev);
            var b := t.batches[ev.id];
            var left := exists s :: s in e.tables.members && s.batch == ev.id && e.tables.members[s].outcome.None?;
            && e.reply == Granted(ev.id)
            && Settles(Reclaim(t, ev.now), e.tables, ev.id, ev.completions)
            && e.tables.batches.Keys == t.batches.Keys
            && e.tables.generations == t.generations
            && (forall id | id in t.batches && id != ev.id :: e.tables.batches[id] == Reclaim(t, ev.now).batches[id])
            && e.tables.batches[ev.id] == b.(
                 state := if left then Leased else Completed,
                 completedAt := if left then b.completedAt else Some(ev.now),
                 commitSha := if b.commitSha.None? && e.handed != [] then ev.sha else b.commitSha,
                 failure := if b.failure.None? && e.handed != [] then ev.failure else b.failure)
  {
    hide Reclaim, Settle, Acceptable, OpenSlots, FirstFor;
    var r := Reclaim(t, ev.now);
    ReclaimedIsRunning(t, ev.now, ev.id);
    assert r.generations == t.generations by { ReclaimExpires(t, ev.now); }
    var accepted := Acceptable(r, ev.id, ev.completions);
    var settled := Settle(r, ev.id, accepted);
    assert Settles(r, settled, ev.id, ev.completions) by { AcceptedSettle(r, ev.id, ev.completions); }
    assert settled.generations == r.generations by { SettleIsCalm(r, ev.id, accepted); }
    assert Apply(t, ev).handed == accepted && Apply(t, ev).tables.members == settled.members;
    assert OpenSlots(settled, ev.id) == {} <==>
      !exists s :: s in settled.members && s.batch == ev.id && settled.members[s].outcome.None? by { NoneLeft(settled, ev.id); }
  }

  lemma NoneLeft(t: Tables, id: int)
    ensures OpenSlots(t, id) == {} <==> !exists s :: s in t.members && s.batch == id && t.members[s].outcome.None?
  {
    if s :| s in t.members && s.batch == id && t.members[s].outcome.None? {
      assert s in OpenSlots(t, id);
    }
  }

  /** It hands over just the completions that name an unfinished membership of its batch. */
  lemma HandedIsExact(t: Tables, ev: Event, c: Completion)
    requires ev.Complete?
    ensures var s := Slot(ev.id, c.fence.item);
            multiset(Apply(t, ev).handed)[c] ==
            if Completing(t, ev) && Owned(t, s, c.fence, ev.now) then multiset(ev.completions)[c] else 0
  {
    hide Reclaim, Acceptable, Finish;
    ReclaimedIsRunning(t, ev.now, ev.id);
    AcceptableIsExact(Reclaim(t, ev.now), ev.id, ev.completions, c);
  }

  // ----- claims -----

  /** The revision of the first valid candidate for the item. */
  function FirstRevision(cs: seq<Candidate>, item: string): Option<int> {
    if cs == [] then None
    else if cs[0].item == item && cs[0].revision >= 1 then Some(cs[0].revision)
    else FirstRevision(cs[1..], item)
  }

  /** How many candidates for the item a claim meets up to the first valid one; each spends a generation. */
  function Spends(cs: seq<Candidate>, item: string): nat {
    if cs == [] then 0
    else if cs[0].item != item then Spends(cs[1..], item)
    else if cs[0].revision >= 1 then 1
    else 1 + Spends(cs[1..], item)
  }

  /** What a claim adds to its batch: open memberships alone, each for the first valid candidate of an
      item nobody held, under the next generation that was not spent before. */
  ghost predicate Takes(t: Tables, u: Tables, id: int, cs: seq<Candidate>) {
    && u.batches == t.batches
    && (forall s | s in t.members :: s in u.members && u.members[s] == t.members[s])
    && (forall s | s in u.members && s !in t.members :: TakenBy(t, u, id, cs, s))
    && (forall item :: Generation(t, item) <= Generation(u, item))
    && (forall item | Generation(u, item) != Generation(t, item) :: exists c | c in cs :: c.item == item)
  }

  ghost predicate TakenBy(t: Tables, u: Tables, id: int, cs: seq<Candidate>, s: Slot)
    requires s in u.members
  {
    && s.batch == id && u.members[s].outcome.None? && !Held(t, s.item)
    && FirstRevision(cs, s.item) == Some(u.members[s].revision)
    && u.members[s].generation == Generation(t, s.item) + Spends(cs, s.item)
    && Generation(t, s.item) < u.members[s].generation <= Generation(u, s.item)
  }

  lemma ClaimOneTakes(t: Tables, id: int, c: Candidate)
    requires Keyed(t)
    ensures Takes(t, ClaimOne(t, id, c), id, [c])
    ensures SpendsOne(t, ClaimOne(t, id, c), c)
  {
    assert [c][1..] == [];
  }

  ghost predicate SpendsOne(t: Tables, v: Tables, c: Candidate) {
    forall item :: Generation(v, item) == Generation(t, item) + if item == c.item then 1 else 0
  }

  lemma FirstRevisionNext(cs: seq<Candidate>, item: string)
    requires cs != []
    ensures FirstRevision(cs, item) == if FirstRevision([cs[0]], item).Some? then FirstRevision([cs[0]], item) else FirstRevision(cs[1..], item)
    ensures FirstRevision([cs[0]], item).Some? ==> Spends(cs, item) == Spends([cs[0]], item)
    ensures FirstRevision([cs[0]], item).None? ==> Spends(cs, item) == (if cs[0].item == item then 1 else 0) + Spends(cs[1..], item)
  {
  }

  lemma TakenByMore(t: Tables, v: Tables, u: Tables, id: int, cs: seq<Candidate>, s: Slot)
    requires cs != [] && Takes(t, v, id, [cs[0]]) && Takes(v, u, id, cs[1..]) && s in u.members && s !in t.members
    requires (cs[0].revision >= 1 ==> Held(v, cs[0].item)) && SpendsOne(t, v, cs[0])
    ensures TakenBy(t, u, id, cs, s)
  {
    hide FirstRevision, Spends, Generation, Held;
    FirstRevisionNext(cs, s.item);
    OnlyFirst(cs[0], s.item);
    if s in v.members {
      assert TakenBy(t, v, id, [cs[0]], s);
    } else {
      assert TakenBy(v, u, id, cs[1..], s);
      if Held(t, s.item) { TakesKeepsHeld(t, v, id, [cs[0]], s.item); }
    }
  }

  lemma TakesMore(t: Tables, v: Tables, u: Tables, id: int, cs: seq<Candidate>)
    requires cs != [] && Takes(t, v, id, [cs[0]]) && Takes(v, u, id, cs[1..])
    requires (cs[0].revision >= 1 ==> Held(v, cs[0].item)) && SpendsOne(t, v, cs[0])
    ensures Takes(t, u, id, cs)
  {
    hide FirstRevision, Generation, Held, TakenBy;
    assert cs[0] in cs;
    forall s | s in u.members && s !in t.members ensures TakenBy(t, u, id, cs, s) {
      TakenByMore(t, v, u, id, cs, s);
    }
    forall item | Generation(u, item) != Generation(t, item) ensures exists c | c in cs :: c.item == item {
      if Generation(u, item) != Generation(v, item) {
        var c :| c in cs[1..] && c.item == item;
        assert c in cs;
      }
    }
  }

  lemma OnlyFirst(c: Candidate, item: string)
    ensures FirstRevision([c], item).Some? ==> c.item == item && c.revision >= 1
  {
    assert FirstRevision([c][1..], item).None?;
  }

  lemma {:induction false} FillTakes(t: Tables, id: int, maxItems: int, cs: seq<Candidate>)
    requires Keyed(t) && id in t.batches && forall s | s in t.members && s.batch == id :: t.members[s].Open()
    ensures Takes(t, Fill(t, id, maxItems, cs), id, cs)
    decreases |cs|
  {
    hide Takes, ClaimOne, OpenSlots, Held, Keyed, SpendsOne;
    if cs == [] || |OpenSlots(t, id)| >= maxItems {
      TakesNothing(t, id, cs);
    } else {
      var v := ClaimOne(t, id, cs[0]);
      ClaimOneKeepsKeyed(t, id, cs[0]);
      ClaimOneTakes(t, id, cs[0]);
      ClaimOneStaysOpen(t, id, cs[0]);
      if cs[0].revision >= 1 { CandidateIsHeld(t, id, cs[0]); }
      FillTakes(v, id, maxItems, cs[1..]);
      TakesMore(t, v, Fill(v, id, maxItems, cs[1..]), id, cs);
    }
  }

  lemma TakesNothing(t: Tables, id: int, cs: seq<Candidate>)
    ensures Takes(t, t, id, cs)
  {
  }

  lemma ClaimOneStaysOpen(t: Tables, id: int, c: Candidate)
    requires forall s | s in t.members && s.batch == id :: t.members[s].Open()
    ensures var v := ClaimOne(t, id, c);
            v.batches == t.batches && forall s | s in v.members && s.batch == id :: v.members[s].Open()
  {
  }

  /** Candidates are taken in their order: what comes before one that was taken is held as well. */
  lemma {:induction false} ClaimsInOrder(t: Tables, id: int, maxItems: int, cs: seq<Candidate>, i: nat, s: Slot)
    requires Keyed(t) && id in t.batches && forall s | s in t.members && s.batch == id :: t.members[s].Open()
    requires i < |cs| && cs[i].revision >= 1
    requires s in Fill(t, id, maxItems, cs).members && s !in t.members && FirstRevision(cs[..i], s.item).None?
    ensures Held(Fill(t, id, maxItems, cs), cs[i].item)
    decreases |cs|
  {
    hide ClaimOne, OpenSlots, Held, Keyed, FirstRevision, Takes;
    var u := Fill(t, id, maxItems, cs);
    if cs != [] && |OpenSlots(t, id)| < maxItems {
      var v := ClaimOne(t, id, cs[0]);
      ClaimOneKeepsKeyed(t, id, cs[0]);
      ClaimOneStaysOpen(t, id, cs[0]);
      FillTakes(v, id, maxItems, cs[1..]);
      if i == 0 {
        CandidateIsHeld(t, id, cs[0]);
        TakesKeepsHeld(v, u, id, cs[1..], cs[0].item);
      } else {
        assert cs[..i][0] == cs[0] && cs[..i][1..] == cs[1..][..i - 1];
        FirstRevisionNext(cs[..i], s.item);
        ClaimOneTakes(t, id, cs[0]);
        assert s !in v.members by { NotTakenYet(t, v, id, cs[0], s); }
        ClaimsInOrder(v, id, maxItems, cs[1..], i - 1, s);
      }
    }
  }

  lemma NotTakenYet(t: Tables, v: Tables, id: int, c: Candidate, s: Slot)
    requires Takes(t, v, id, [c]) && s !in t.members && FirstRevision([c], s.item).None?
    ensures s !in v.members
  {
    hide FirstRevision;
    assert s in v.members ==> TakenBy(t, v, id, [c], s);
  }

  lemma TakesKeepsHeld(t: Tables, u: Tables, id: int, cs: seq<Candidate>, item: string)
    requires Takes(t, u, id, cs) && Held(t, item)
    ensures Held(u, item)
  {
    hide FirstRevision;
    var s :| s in t.members && s.item == item && t.members[s].Open();
    assert s in u.members && u.members[s].Open();
  }

  ghost function RunningIds(t: Tables, now: int): set<int> { set id | id in t.batches && Running(t, id, now) }

  /** Some candidate can be taken: it is valid, and its item is in no running batch. */
  ghost predicate Claimable(t: Tables, ev: Event)
    requires ev.Claim?
  {
    exists c | c in ev.candidates :: c.revision >= 1 && !Held(Reclaim(t, ev.now), c.item)
  }

  /** A claim begins a batch exactly when its identifier is new, a lease is free and some candidate can
      be taken; it asks again for a running batch of its own; and it is refused otherwise. */
  lemma ClaimIsExact(t: Tables, ev: Event)
    requires Inv(t) && ev.Claim? && ev.maxItems >= 1
    ensures var e := Apply(t, ev);
            var r := Reclaim(t, ev.now);
            var begins := ev.id !in t.batches && |RunningIds(t, ev.now)| < Max(1, ev.maxConcurrent) && Claimable(t, ev);
            && e.handed == []
            && (e.reply == if begins || (Running(t, ev.id, ev.now) && t.batches[ev.id].owner == ev.owner) then Granted(ev.id) else Nothing)
            && (!begins ==> e.tables.batches == r.batches && e.tables.members == r.members)
            && (begins ==> Takes(Begun(r, ev), e.tables, ev.id, ev.candidates))
  {
    hide Inv, Reclaim, Fill, Takes, Filling, Keyed, Held, OpenSlots, Slots;
    var r := Reclaim(t, ev.now);
    ReclaimedIsRunning(t, ev.now, ev.id);
    LeasedIdsAreRunning(t, ev.now);
    ReclaimKeepsInv(t, ev.now);
    if ev.id !in r.batches && |LeasedIds(r)| < Cap(ev.maxConcurrent) {
      var begun := Begun(r, ev);
      BegunIsFilling(r, ev);
      FillingIsKeyed(begun, ev.id);
      assert forall s | s in begun.members :: s.batch != ev.id by { NoMemberYet(r, ev); }
      var filled := Fill(begun, ev.id, ev.maxItems, ev.candidates);
      FillTakes(begun, ev.id, ev.maxItems, ev.candidates);
      assert begun.batches - {ev.id} == r.batches;
      assert filled.batches == begun.batches by { TakesSameBatches(begun, filled, ev); }
      assert forall item :: Held(begun, item) == Held(r, item) by { SameHeld(r, begun); }
      if Claimable(t, ev) {
        ClaimTakesSomething(begun, ev, filled);
      } else {
        NothingToTake(begun, ev, filled);
      }
    }
  }

  lemma TakesSameBatches(begun: Tables, filled: Tables, ev: Event)
    requires ev.Claim? && Takes(begun, filled, ev.id, ev.candidates)
    ensures filled.batches == begun.batches
  {
  }

  lemma SameHeld(r: Tables, begun: Tables)
    requires begun.members == r.members
    ensures forall item :: Held(begun, item) == Held(r, item)
  {
  }

  lemma NoMemberYet(r: Tables, ev: Event)
    requires Inv(r) && ev.Claim? && ev.id !in r.batches
    ensures forall s | s in r.members :: s.batch != ev.id
  {
  }

  lemma LeasedIdsAreRunning(t: Tables, now: int)
    ensures LeasedIds(Reclaim(t, now)) == RunningIds(t, now)
  {
    hide Reclaim;
    forall id ensures id in LeasedIds(Reclaim(t, now)) <==> id in RunningIds(t, now) { ReclaimedIsRunning(t, now, id); }
  }

  lemma ClaimTakesSomething(begun: Tables, ev: Event, filled: Tables)
    requires ev.Claim? && ev.maxItems >= 1 && Keyed(begun) && ev.id in begun.batches
    requires (forall s | s in begun.members :: s.batch != ev.id) && filled == Fill(begun, ev.id, ev.maxItems, ev.candidates)
    requires Takes(begun, filled, ev.id, ev.candidates)
    requires exists c | c in ev.candidates :: c.revision >= 1 && !Held(begun, c.item)
    ensures Slots(filled, ev.id) != {}
  {
    hide Fill, FirstRevision, Keyed;
    var c :| c in ev.candidates && c.revision >= 1 && !Held(begun, c.item);
    ClaimIsWorkConserving(begun, ev.id, ev.maxItems, ev.candidates, c);
    if |OpenSlots(filled, ev.id)| >= ev.maxItems {
      var s :| s in OpenSlots(filled, ev.id);
      assert s in Slots(filled, ev.id);
    } else {
      var s :| s in filled.members && s.item == c.item && filled.members[s].Open();
      assert s !in begun.members;
      assert TakenBy(begun, filled, ev.id, ev.candidates, s);
      assert s in Slots(filled, ev.id);
    }
  }

  lemma NothingToTake(begun: Tables, ev: Event, filled: Tables)
    requires ev.Claim? && (forall s | s in begun.members :: s.batch != ev.id)
    requires Takes(begun, filled, ev.id, ev.candidates)
    requires forall c | c in ev.candidates && c.revision >= 1 :: Held(begun, c.item)
    ensures Slots(filled, ev.id) == {} && filled.members == begun.members
  {
    forall s | s in filled.members ensures s in begun.members {
      if s !in begun.members {
        assert TakenBy(begun, filled, ev.id, ev.candidates, s);
        FirstIsAmong(ev.candidates, s.item);
      }
    }
  }

  lemma {:induction false} FirstIsAmong(cs: seq<Candidate>, item: string)
    requires FirstRevision(cs, item).Some?
    ensures exists c | c in cs :: c.item == item && c.revision >= 1
  {
    if !(cs[0].item == item && cs[0].revision >= 1) {
      FirstIsAmong(cs[1..], item);
      var c :| c in cs[1..] && c.item == item && c.revision >= 1;
      assert c in cs;
    } else {
      assert cs[0] in cs;
    }
  }

  // ----- cleanup -----

  ghost predicate Forgettable(t: Tables, id: int, cutoff: int) {
    id in t.batches && !t.batches[id].state.Leased? && t.batches[id].completedAt.Some? && t.batches[id].completedAt.value <= cutoff
  }

  /** Cleanup deletes finished batches beyond their time to live, with all their memberships, and
      leaves one behind only where its limit was met. */
  lemma CleanupIsTold(t: Tables, ev: Event, id: int, s: Slot)
    requires ev.Stats? && ev.limit >= 0
    ensures var r := Reclaim(t, ev.now);
            var e := Apply(t, ev);
            && (id in e.tables.batches ==> id in r.batches && e.tables.batches[id] == r.batches[id])
            && (id in r.batches && id !in e.tables.batches ==> Forgettable(r, id, ev.now - ev.ttl))
            && (id in e.tables.batches && Forgettable(r, id, ev.now - ev.ttl) ==> e.reply.deleted == ev.limit)
            && (s in e.tables.members <==> s in r.members && !(s.batch in r.batches && s.batch !in e.tables.batches))
            && (s in e.tables.members ==> e.tables.members[s] == r.members[s])
            && e.tables.generations == t.generations
  {
    hide Reclaim, Victims;
    var r := Reclaim(t, ev.now);
    var cutoff := ev.now - ev.ttl;
    VictimsAreStale(r, cutoff, ev.limit);
    VictimCount(r, cutoff, ev.limit);
    assert r.generations == t.generations by { ReclaimExpires(t, ev.now); }
    if id in r.batches && Forgettable(r, id, cutoff) && |StaleIds(r, cutoff)| <= ev.limit {
      SameSize(VictimIds(r, cutoff, ev.limit), StaleIds(r, cutoff));
    }
  }

  lemma SameSize(a: set<int>, b: set<int>)
    requires a <= b && |a| == |b|
    ensures a == b
  {
    assert |b - a| == 0 by { assert b == a + (b - a); }
  }

  // ----- how memberships end -----

  /** Every ending has its cause: an unfinished membership ends because its lease ran out, or by the
      first completion under its fence that its owner reported while the lease was running. */
  lemma EveryEndingHasACause(t: Tables, ev: Event, s: Slot)
    requires Inv(t) && s in t.members && t.members[s].outcome.None?
    requires s in Apply(t, ev).tables.members
    ensures Apply(t, ev).tables.members[s].outcome ==
              if ev.Restart? || Apply(t, ev).reply.Threw? then None
              else if !Running(t, s.batch, Time(ev)) then Some(LeaseExpired)
              else if ev.Complete? && ev.id == s.batch && Completing(t, ev) then FirstFor(ev.completions, FenceOf(s, t.members[s]))
              else None
  {
    hide Inv, Fill, Finish, Reseed, Delete, Victims, Reclaim, Acceptable, Settle;
    var now := Time(ev);
    var r := Reclaim(t, now);
    OpenIsLeased(t, s);
    ReclaimExpires(t, now);
    match ev
    case Claim(_, _, _, _, _, _, _) => if !ClaimTx(t, ev).reply.Threw? { ClaimKeepsRows(t, ev, s); }
    case Fetch(_, _, _) =>
    case Heartbeat(_, _, _, _, _) => HeartbeatIsExact(t, ev);
    case OwnsFence(_, _) =>
    case Complete(id, _, _, _, _, _, _) =>
      ReclaimedIsRunning(t, now, id);
      if Completing(t, ev) { CompletionIsExact(t, ev); }
    case Stats(_, ttl, limit) => DeletedRows(r, VictimIds(r, now - ttl, limit), s);
    case Restart => RestartIsSilent(t);
  }

  lemma OpenIsLeased(t: Tables, s: Slot)
    requires Inv(t) && s in t.members && t.members[s].outcome.None?
    ensures s.batch in t.batches && t.batches[s.batch].state.Leased?
  {
    assert s in OpenSlots(t, s.batch);
  }

  lemma ClaimKeepsRows(t: Tables, ev: Event, s: Slot)
    requires Inv(t) && ev.Claim? && s in t.members && !ClaimTx(t, ev).reply.Threw?
    ensures s in ClaimTx(t, ev).tables.members && ClaimTx(t, ev).tables.members[s] == Reclaim(t, ev.now).members[s]
  {
    hide Inv, Reclaim, Fill, Filling, Keyed;
    var r := Reclaim(t, ev.now);
    ReclaimedIsRunning(t, ev.now, ev.id);
    ReclaimKeepsInv(t, ev.now);
    if ev.id !in r.batches && |LeasedIds(r)| < Cap(ev.maxConcurrent) && ev.maxItems >= 1 {
      BegunIsFilling(r, ev);
      FillingIsKeyed(Begun(r, ev), ev.id);
      FillEvolves(Begun(r, ev), ev.id, ev.maxItems, ev.candidates);
    }
  }

  lemma DeletedRows(r: Tables, ids: set<int>, s: Slot)
    requires s in Delete(r, ids).members
    ensures s in r.members && Delete(r, ids).members[s] == r.members[s]
  {
  }
}

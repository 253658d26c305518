/** The publication-batch store: each method is one transaction over the three tables. */
module PublicationBatchStore {
  import opened Ordering
  import opened PublicationBatches
  import opened PublicationBatchSafety

  /** Reclaiming just the batches in `ids`. */
  ghost function ReclaimOnly(t: Tables, now: int, ids: set<int>): Tables {
    t.(
    batches := map id | id in t.batches ::
      if id in ids then ExpireBatch(t.batches[id], now) else t.batches[id],
    members := map s | s in t.members ::
      if s.batch in ids then ExpireMember(t.members[s]) else t.members[s])
  }

  function ExpireMembers(members: map<Slot, Membership>, id: int): map<Slot, Membership> {
    map s | s in members :: if s.batch == id then ExpireMember(members[s]) else members[s]
  }

  function WithoutMembers(members: map<Slot, Membership>, id: int): map<Slot, Membership> {
    map s | s in members && s.batch != id :: members[s]
  }

  lemma ReclaimOneMore(t: Tables, now: int, ids: set<int>, id: int)
    requires id in t.batches && id !in ids
    ensures var u := ReclaimOnly(t, now, ids);
            id in u.batches
            && u.(batches := u.batches[id := ExpireBatch(u.batches[id], now)], members := ExpireMembers(u.members, id))
               == ReclaimOnly(t, now, ids + {id})
  {
    var u := ReclaimOnly(t, now, ids);
    var v := ReclaimOnly(t, now, ids + {id});
    assert u.batches[id := ExpireBatch(u.batches[id], now)] == v.batches;
    assert ExpireMembers(u.members, id) == v.members;
  }

  lemma ReclaimAllDue(t: Tables, now: int)
    ensures ReclaimOnly(t, now, DueIds(t, now)) == Reclaim(t, now)
    ensures ReclaimOnly(t, now, {}) == t
  {
    assert ReclaimOnly(t, now, {}).batches == t.batches && ReclaimOnly(t, now, {}).members == t.members;
    var u := ReclaimOnly(t, now, DueIds(t, now));
    assert u.batches == Reclaim(t, now).batches;
    assert u.members == Reclaim(t, now).members;
  }

  function DueIds(t: Tables, now: int): set<int> {
    set id | id in t.batches && Due(t.batches[id], now)
  }

  lemma DeleteOneMore(t: Tables, ids: set<int>, id: int)
    ensures var u := Delete(t, ids);
            u.(members := WithoutMembers(u.members, id), batches := u.batches - {id}) == Delete(t, ids + {id})
    ensures Delete(t, {}) == t
  {
    var u := Delete(t, ids);
    assert WithoutMembers(u.members, id) == Delete(t, ids + {id}).members;
    assert Delete(t, {}).members == t.members && Delete(t, {}).batches == t.batches;
  }

  class Store {
    var storage: Tables

    constructor ()
      ensures storage == EMPTY
    {
      storage := EMPTY;
    }

    /** Ends every lease that has run out, one batch at a time. */
    method ReclaimExpired(now: int)
      modifies this
      ensures storage == Reclaim(old(storage), now)
    {
      hide Reclaim, ReclaimOnly, ExpireMembers;
      var due := DueIds(storage, now);
      var left := due;
      ghost var done: set<int> := {};
      ReclaimAllDue(storage, now);
      while left != {}
        invariant left <= due && done == due - left
        invariant storage == ReclaimOnly(old(storage), now, done)
        decreases |left|
      {
        var id := AnyRow(left);
        ReclaimOneMore(old(storage), now, done, id);
        storage := storage.(
        batches := storage.batches[id := ExpireBatch(storage.batches[id], now)],
        members := ExpireMembers(storage.members, id));
        left := left - {id};
        done := done + {id};
      }
      assert done == due;
    }

    /** The counter survives the rows it fences: each call returns a number above every one before it,
        and above every membership that is still there. */
    method NextClaimGeneration(item: string) returns (generation: int)
      modifies this
      ensures generation == NextGeneration(old(storage), item)
      ensures storage == old(storage).(generations := old(storage).generations[item := generation])
      ensures item in old(storage).generations ==> generation > old(storage).generations[item]
      ensures Fenced(old(storage)) ==> forall s | s in storage.members && s.item == item :: storage.members[s].generation < generation
    {
      if item in storage.generations {
        storage := storage.(generations := storage.generations[item := storage.generations[item] + 1]);
      } else {
        storage := storage.(generations := storage.generations[item := 1]);
      }
      return storage.generations[item];
    }

    method Claim(id: int, owner: string, expiresAt: int, now: int, maxItems: int, maxConcurrent: int,
                 candidates: seq<Candidate>)
      returns (reply: Reply)
      modifies this
      ensures Effect(storage, reply, []) ==
              Apply(old(storage), Event.Claim(id, owner, expiresAt, now, maxItems, maxConcurrent, candidates))
    {
      var saved := storage;
      ReclaimExpired(now);
      if id in storage.batches {
        var existing := storage.batches[id];
        return if existing.state.Leased? && existing.owner == owner then Granted(id) else Nothing;
      }
      if |LeasedIds(storage)| >= Cap(maxConcurrent) {
        return Nothing;
      }
      if maxItems < 1 {
        storage := saved;
        return Threw;
      }
      storage := storage.(batches := storage.batches[id :=
        Batch(Leased, owner, expiresAt, maxItems, now, None, None, None)]);
      ghost var begun := storage;
      var next := 0;
      while next < |candidates| && |OpenSlots(storage, id)| < maxItems
        invariant 0 <= next <= |candidates|
        invariant Fill(begun, id, maxItems, candidates) == Fill(storage, id, maxItems, candidates[next..])
      {
        var c := candidates[next];
        ghost var before := storage;
        var free := Slot(id, c.item) !in storage.members && !Held(storage, c.item);
        var generation := NextClaimGeneration(c.item);
        if c.revision >= 1 && generation >= 1 && free {
          storage := storage.(members := storage.members[Slot(id, c.item) := Membership(c.revision, generation, None)]);
        }
        assert storage == ClaimOne(before, id, c);
        assert candidates[next..][1..] == candidates[next + 1..];
        next := next + 1;
      }
      if Slots(storage, id) == {} {
        storage := storage.(batches := storage.batches - {id});
        return Nothing;
      }
      return Granted(id);
    }

    method Fetch(id: int, owner: string, now: int) returns (reply: Reply)
      modifies this
      ensures Effect(storage, reply, []) == Apply(old(storage), Event.Fetch(id, owner, now))
    {
      ReclaimExpired(now);
      if id in storage.batches && storage.batches[id].owner == owner && !storage.batches[id].state.Expired? {
        return Granted(id);
      }
      return Nothing;
    }

    method Heartbeat(id: int, owner: string, fences: seq<Fence>, expiresAt: int, now: int) returns (reply: Reply)
      modifies this
      ensures Effect(storage, reply, []) == Apply(old(storage), Event.Heartbeat(id, owner, fences, expiresAt, now))
    {
      ReclaimExpired(now);
      if !HeartbeatAccepted(storage, id, owner, fences) {
        return Nothing;
      }
      var b := storage.batches[id];
      var later := if b.expiresAt < expiresAt then expiresAt else b.expiresAt;
      storage := storage.(batches := storage.batches[id := b.(expiresAt := later)]);
      return Granted(id);
    }

    method OwnsActiveFence(fence: Fence, now: int) returns (owns: bool)
      modifies this
      ensures Effect(storage, Answer(owns), []) == Apply(old(storage), OwnsFence(fence, now))
    {
      ReclaimExpired(now);
      owns := OwnsActive(storage, fence);
    }

    /** `callbackThrows` stands for the outcome of the caller's onAccepted hook. */
    method Complete(id: int, owner: string, completions: seq<Completion>, now: int,
                    sha: Option<string>, failure: Option<string>, callbackThrows: bool)
      returns (reply: Reply, handed: seq<Completion>)
      modifies this
      ensures Effect(storage, reply, handed) ==
              Apply(old(storage), Event.Complete(id, owner, completions, now, sha, failure, callbackThrows))
    {
      ghost var ev := Event.Complete(id, owner, completions, now, sha, failure, callbackThrows);
      var saved := storage;
      handed := [];
      ReclaimExpired(now);
      ghost var t := storage;
      if id !in storage.batches || storage.batches[id].owner != owner {
        reply := Nothing;
        return;
      }
      if !storage.batches[id].state.Leased? {
        reply := if forall c | c in completions :: Matches(storage, id, c.fence) then Granted(id) else Nothing;
        return;
      }
      if callbackThrows {
        storage := saved;
        reply := Threw;
        return;
      }
      handed := Acceptable(storage, id, completions);
      var next := 0;
      while next < |handed|
        invariant 0 <= next <= |handed|
        invariant handed == Acceptable(t, id, completions)
        invariant storage.batches == t.batches
        invariant Settle(t, id, handed) == Settle(storage, id, handed[next..])
      {
        assert handed[next..][1..] == handed[next + 1..];
        storage := SettleOne(storage, id, handed[next]);
        next := next + 1;
      }
      var b := storage.batches[id];
      if handed != [] {
        b := b.(commitSha := Coalesce(b.commitSha, sha), failure := Coalesce(b.failure, failure));
      }
      if OpenSlots(storage, id) == {} {
        b := b.(state := Completed, completedAt := Some(now));
      }
      assert storage == Settle(t, id, handed);
      storage := storage.(batches := storage.batches[id := b]);
      reply := Granted(id);
    }

    /** Statistics reclaim expired leases and delete one bounded batch of finished history. */
    method Stats(now: int, ttl: int, limit: int) returns (reply: Reply)
      modifies this
      ensures Effect(storage, reply, []) == Apply(old(storage), Event.Stats(now, ttl, limit))
    {
      hide Reclaim, Delete, Victims, WithoutMembers;
      ReclaimExpired(now);
      ghost var t := storage;
      var victims := Victims(storage, now - ttl, limit);
      ghost var gone: set<int> := {};
      DeleteOneMore(t, {}, 0);
      var next := 0;
      while next < |victims|
        invariant 0 <= next <= |victims|
        invariant gone == set id | id in victims[..next]
        invariant storage == Delete(t, gone)
      {
        var id := victims[next];
        DeleteOneMore(t, gone, id);
        storage := storage.(
        members := WithoutMembers(storage.members, id),
        batches := storage.batches - {id});
        assert victims[..next + 1] == victims[..next] + [id];
        gone := gone + {id};
        next := next + 1;
      }
      assert victims[..next] == victims;
      assert gone == VictimIds(t, now - ttl, limit);
      reply := Cleaned(|victims|, |StaleIds(storage, now - ttl)|);
    }

    /** The repairs of every start: sizes first, then counters, row by row and only where they fall short. */
    method EnsureSchema()
      requires Keyed(storage)
      modifies this
      ensures storage == Apply(old(storage), Restart).tables
      ensures Reseeded(old(storage), storage)
    {
      hide HighestGeneration, Slots;
      ghost var was := storage;
      RaiseSizes();
      ghost var sized := storage;
      RaiseGenerations();
      ReseedIsReseeded(was);
      SameReseed(was, sized, storage);
    }

    /** Every recorded size that is below the batch's membership count becomes that count. */
    method RaiseSizes()
      modifies this
      ensures SizesRaised(old(storage), storage, old(storage).batches.Keys)
    {
      hide Slots;
      var left := storage.batches.Keys;
      while left != {}
        invariant left <= old(storage).batches.Keys
        invariant SizesRaised(old(storage), storage, old(storage).batches.Keys - left)
        decreases |left|
      {
        var id := AnyRow(left);
        SameMembersSameSlots(old(storage), storage, id);
        if storage.batches[id].size < |Slots(storage, id)| {
          storage := storage.(batches := storage.batches[id := storage.batches[id].(size := |Slots(storage, id)|)]);
        }
        left := left - {id};
      }
    }

    /** Every counter that is missing or below one of its item's memberships rises to it. */
    method RaiseGenerations()
      modifies this
      ensures GenerationsRaised(old(storage), storage, old(storage).members.Keys)
    {
      var left := storage.members.Keys;
      while left != {}
        invariant left <= old(storage).members.Keys
        invariant GenerationsRaised(old(storage), storage, old(storage).members.Keys - left)
        decreases |left|
      {
        var s := AnyRow(left);
        var generation := storage.members[s].generation;
        if s.item !in storage.generations || storage.generations[s.item] < generation {
          storage := storage.(generations := storage.generations[s.item := generation]);
        }
        left := left - {s};
      }
    }
  }

  /** The sizes of just these batches have been raised. */
  ghost predicate SizesRaised(t: Tables, u: Tables, done: set<int>) {
    && u == t.(batches := u.batches) && u.batches.Keys == t.batches.Keys
    && (forall id | id in t.batches && id !in done :: u.batches[id] == t.batches[id])
    && (forall id | id in t.batches && id in done ::
          u.batches[id] == t.batches[id].(size := if t.batches[id].size < |Slots(t, id)| then |Slots(t, id)| else t.batches[id].size))
  }

  /** The counters are raised as far as just these memberships need. */
  ghost predicate GenerationsRaised(t: Tables, u: Tables, done: set<Slot>) {
    && u == t.(generations := u.generations)
    && (forall item | item in t.generations :: item in u.generations && t.generations[item] <= u.generations[item])
    && (forall s | s in done && s in t.members :: s.item in u.generations && t.members[s].generation <= u.generations[s.item])
    && (forall item | item in u.generations ::
          || (item in t.generations && u.generations[item] == t.generations[item])
          || (exists s | s in done && s in t.members :: s.item == item && t.members[s].generation == u.generations[item]))
  }

  lemma SameMembersSameSlots(t: Tables, u: Tables, id: int)
    requires u.members == t.members
    ensures Slots(u, id) == Slots(t, id)
  {
  }

  /** Being raised exactly as far as needed leaves one possible result. */
  lemma SameReseed(t: Tables, sized: Tables, u: Tables)
    requires Reseeded(t, Reseed(t)) && SizesRaised(t, sized, t.batches.Keys) && GenerationsRaised(sized, u, sized.members.Keys)
    ensures u == Reseed(t)
  {
    hide Reseed, Slots;
    var v := Reseed(t);
    assert v == t.(batches := v.batches, generations := v.generations) by { ReseedElsewhere(t); }
    assert u.batches.Keys == v.batches.Keys;
    forall id | id in t.batches ensures u.batches[id] == v.batches[id] {}
    assert u.batches == v.batches;
    forall item ensures item in u.generations <==> item in v.generations {}
    forall item | item in u.generations ensures u.generations[item] == v.generations[item] {}
    assert u.generations == v.generations;
  }

  lemma ReseedElsewhere(t: Tables)
    ensures Reseed(t) == t.(batches := Reseed(t).batches, generations := Reseed(t).generations)
  {
  }
}

/**
 Publication batch leases: the batch, membership and claim-generation tables, each
 transaction as a function from tables to tables, and the store whose methods run them.
 Batch identifiers are compared for equality and in a fixed total order, so they are integers.
 */
module PublicationBatches {
  import opened Ordering

  datatype State = Leased | Completed | Expired

  datatype Outcome = Published | Superseded | LeaseExpired

  datatype Batch = Batch(
    state: State,
    owner: string,
    expiresAt: int,
    size: int,
    createdAt: int,
    completedAt: Option<int>,
    commitSha: Option<string>,
    failure: Option<string>)

  datatype Slot = Slot(batch: int, item: string)

  datatype Membership = Membership(revision: int, generation: int, outcome: Option<Outcome>) {
    predicate Open() { outcome.None? }
  }

  /** What a worker presents to prove which lease it works under. */
  datatype Fence = Fence(item: string, revision: int, generation: int)

  datatype Completion = Completion(fence: Fence, outcome: Outcome)

  datatype Candidate = Candidate(item: string, revision: int)

  datatype Tables = Tables(
    batches: map<int, Batch>,
    members: map<Slot, Membership>,
    generations: map<string, int>)

  datatype Reply =
    | Nothing
    | Granted(batch: int)
    | Answer(yes: bool)
    | Cleaned(deleted: nat, remaining: nat)
    | Threw

  /** A committed (or rolled back) transaction: the tables it leaves, what it returns and
      the completions its callback was given. */
  datatype Effect = Effect(tables: Tables, reply: Reply, handed: seq<Completion>)

  datatype Event =
    | Claim(id: int, owner: string, expiresAt: int, now: int, maxItems: int,
            maxConcurrent: int, candidates: seq<Candidate>)
    | Fetch(id: int, owner: string, now: int)
    | Heartbeat(id: int, owner: string, fences: seq<Fence>, expiresAt: int, now: int)
    | OwnsFence(fence: Fence, now: int)
    | Complete(id: int, owner: string, completions: seq<Completion>, now: int,
               sha: Option<string>, failure: Option<string>, callbackThrows: bool)
    | Stats(now: int, ttl: int, limit: int)
    | Restart

  const EMPTY := Tables(map[], map[], map[])

  // ----- reading the tables -----

  function Slots(t: Tables, id: int): set<Slot> {
    set s | s in t.members && s.batch == id
  }

  function OpenSlots(t: Tables, id: int): set<Slot> {
    set s | s in t.members && s.batch == id && t.members[s].Open()
  }

  predicate Held(t: Tables, item: string) {
    exists s | s in t.members :: s.item == item && t.members[s].Open()
  }

  function LeasedIds(t: Tables): set<int> {
    set id | id in t.batches && t.batches[id].state.Leased?
  }

  predicate Matches(t: Tables, id: int, f: Fence) {
    var s := Slot(id, f.item);
    s in t.members && t.members[s].revision == f.revision && t.members[s].generation == f.generation
  }

  predicate MatchesOpen(t: Tables, id: int, f: Fence) {
    Matches(t, id, f) && t.members[Slot(id, f.item)].Open()
  }

  predicate Due(b: Batch, now: int) {
    b.state.Leased? && b.expiresAt <= now
  }

  // ----- the transactions -----

  function ExpireBatch(b: Batch, now: int): Batch {
    b.(state := Expired, completedAt := Some(now))
  }

  function ExpireMember(m: Membership): Membership {
    if m.Open() then m.(outcome := Some(LeaseExpired)) else m
  }

  /** Every leased batch whose time has run out, with its unfinished memberships. */
  function Reclaim(t: Tables, now: int): Tables {
    t.(
    batches := map id | id in t.batches ::
      if Due(t.batches[id], now) then ExpireBatch(t.batches[id], now) else t.batches[id],
    members := map s | s in t.members ::
      if s.batch in t.batches && Due(t.batches[s.batch], now)
      then ExpireMember(t.members[s]) else t.members[s])
  }

  function NextGeneration(t: Tables, item: string): int {
    if item in t.generations then t.generations[item] + 1 else 1
  }

  /** One candidate: the generation is spent even when the membership row is refused. */
  function ClaimOne(t: Tables, id: int, c: Candidate): Tables {
    var generation := NextGeneration(t, c.item);
    var spent := t.(generations := t.generations[c.item := generation]);
    if c.revision >= 1 && generation >= 1 && Slot(id, c.item) !in t.members && !Held(t, c.item) then
      spent.(members := t.members[Slot(id, c.item) := Membership(c.revision, generation, None)])
    else
      spent
  }

  function Fill(t: Tables, id: int, maxItems: int, candidates: seq<Candidate>): Tables
    decreases |candidates|
  {
    if candidates == [] || |OpenSlots(t, id)| >= maxItems then t
    else Fill(ClaimOne(t, id, candidates[0]), id, maxItems, candidates[1..])
  }

  function ClaimTx(t0: Tables, ev: Event): Effect
    requires ev.Claim?
  {
    var t := Reclaim(t0, ev.now);
    if ev.id in t.batches then
      var b := t.batches[ev.id];
      Effect(t, if b.state.Leased? && b.owner == ev.owner then Granted(ev.id) else Nothing, [])
    else if |LeasedIds(t)| >= Cap(ev.maxConcurrent) then
      Effect(t, Nothing, [])
    else if ev.maxItems < 1 then
      Effect(t0, Threw, [])
    else
      var begun := t.(batches := t.batches[ev.id :=
        Batch(Leased, ev.owner, ev.expiresAt, ev.maxItems, ev.now, None, None, None)]);
      var filled := Fill(begun, ev.id, ev.maxItems, ev.candidates);
      if Slots(filled, ev.id) == {} then
        Effect(filled.(batches := filled.batches - {ev.id}), Nothing, [])
      else
        Effect(filled, Granted(ev.id), [])
  }

  function Cap(maxConcurrent: int): int {
    if maxConcurrent < 1 then 1 else maxConcurrent
  }

  function FetchTx(t0: Tables, ev: Event): Effect
    requires ev.Fetch?
  {
    var t := Reclaim(t0, ev.now);
    Effect(t,
           if ev.id in t.batches && t.batches[ev.id].owner == ev.owner && !t.batches[ev.id].state.Expired?
           then Granted(ev.id) else Nothing,
           [])
  }

  function Items(fences: seq<Fence>): set<string> {
    set f | f in fences :: f.item
  }

  predicate HeartbeatAccepted(t: Tables, id: int, owner: string, fences: seq<Fence>) {
    && id in t.batches
    && t.batches[id].state.Leased?
    && t.batches[id].owner == owner
    && |Items(fences)| == |fences|
    && (forall f | f in fences :: Matches(t, id, f))
    && (forall s | s in OpenSlots(t, id) :: s.item in Items(fences))
  }

  function HeartbeatTx(t0: Tables, ev: Event): Effect
    requires ev.Heartbeat?
  {
    var t := Reclaim(t0, ev.now);
    if !HeartbeatAccepted(t, ev.id, ev.owner, ev.fences) then Effect(t, Nothing, [])
    else
      var b := t.batches[ev.id];
      var later := if b.expiresAt < ev.expiresAt then ev.expiresAt else b.expiresAt;
      Effect(t.(batches := t.batches[ev.id := b.(expiresAt := later)]), Granted(ev.id), [])
  }

  predicate OwnsActive(t: Tables, f: Fence) {
    exists id | id in t.batches :: t.batches[id].state.Leased? && MatchesOpen(t, id, f)
  }

  function Acceptable(t: Tables, id: int, cs: seq<Completion>): (accepted: seq<Completion>)
    ensures forall c | c in accepted :: c in cs && MatchesOpen(t, id, c.fence)
    ensures forall c | c in cs && MatchesOpen(t, id, c.fence) :: c in accepted
  {
    if cs == [] then []
    else if MatchesOpen(t, id, cs[0].fence) then [cs[0]] + Acceptable(t, id, cs[1..])
    else Acceptable(t, id, cs[1..])
  }

  /** The conditional UPDATE of one completion: only a still-unfinished membership changes. */
  function SettleOne(t: Tables, id: int, c: Completion): Tables {
    var s := Slot(id, c.fence.item);
    if MatchesOpen(t, id, c.fence) then
      t.(members := t.members[s := t.members[s].(outcome := Some(c.outcome))])
    else t
  }

  function Settle(t: Tables, id: int, cs: seq<Completion>): Tables
    decreases |cs|
  {
    if cs == [] then t else Settle(SettleOne(t, id, cs[0]), id, cs[1..])
  }

  function Coalesce<T>(first: Option<T>, second: Option<T>): Option<T> {
    if first.Some? then first else second
  }

  /** The batch row once `accepted` is settled: metadata is kept once set, and a batch with
      nothing left unfinished completes. */
  function ClosedBatch(b: Batch, ev: Event, accepted: seq<Completion>, unfinished: set<Slot>): Batch
    requires ev.Complete?
  {
    var noted := if accepted == [] then b
                 else b.(commitSha := Coalesce(b.commitSha, ev.sha), failure := Coalesce(b.failure, ev.failure));
    if unfinished == {} then noted.(state := Completed, completedAt := Some(ev.now)) else noted
  }

  /** What a completion does to the leased batch it names. */
  function Finish(t: Tables, ev: Event): Tables
    requires ev.Complete? && ev.id in t.batches
  {
    var accepted := Acceptable(t, ev.id, ev.completions);
    var settled := Settle(t, ev.id, accepted);
    settled.(batches := t.batches[ev.id := ClosedBatch(t.batches[ev.id], ev, accepted, OpenSlots(settled, ev.id))])
  }

  function CompleteTx(t0: Tables, ev: Event): Effect
    requires ev.Complete?
  {
    var t := Reclaim(t0, ev.now);
    if ev.id !in t.batches || t.batches[ev.id].owner != ev.owner then Effect(t, Nothing, [])
    else if !t.batches[ev.id].state.Leased? then
      Effect(t,
             if forall c | c in ev.completions :: Matches(t, ev.id, c.fence) then Granted(ev.id) else Nothing,
             [])
    else if ev.callbackThrows then Effect(t0, Threw, [])
    else Effect(Finish(t, ev), Granted(ev.id), Acceptable(t, ev.id, ev.completions))
  }

  predicate Stale(b: Batch, cutoff: int) {
    !b.state.Leased? && b.completedAt.Some? && b.completedAt.value <= cutoff
  }

  function StaleIds(t: Tables, cutoff: int): set<int> {
    set id | id in t.batches && Stale(t.batches[id], cutoff)
  }

  /** Cleanup order: oldest completion first, then batch identifier. */
  function Ages(t: Tables, cutoff: int): (ages: map<int, Rank>)
    ensures Distinct(ages)
  {
    map id | id in t.batches && Stale(t.batches[id], cutoff) :: Rank(t.batches[id].completedAt.value, id, 0)
  }

  function Delete(t: Tables, ids: set<int>): Tables {
    t.(batches := t.batches - ids,
       members := map s | s in t.members && s.batch !in ids :: t.members[s])
  }

  function Victims(t: Tables, cutoff: int, limit: int): seq<int> {
    Limit(Sorted(Ages(t, cutoff)), limit)
  }

  function VictimIds(t: Tables, cutoff: int, limit: int): set<int> {
    set id | id in Victims(t, cutoff, limit)
  }

  function StatsTx(t0: Tables, ev: Event): Effect
    requires ev.Stats?
  {
    var t := Reclaim(t0, ev.now);
    var victims := Victims(t, ev.now - ev.ttl, ev.limit);
    var swept := Delete(t, VictimIds(t, ev.now - ev.ttl, ev.limit));
    Effect(swept, Cleaned(|victims|, |StaleIds(swept, ev.now - ev.ttl)|), [])
  }

  function HighestGeneration(t: Tables, item: string): int {
    var negated := set s | s in t.members && s.item == item :: -t.members[s].generation;
    assert (map n | n in negated :: Rank(n, 0, 0)).Keys == negated;
    if negated == {} then 0 else -Least(map n | n in negated :: Rank(n, 0, 0))
  }

  /** The repairs every start runs: the smallest safe size, and generations no lower than any row. */
  function Reseed(t: Tables): Tables {
    t.(
    batches := map id | id in t.batches ::
      if t.batches[id].size < |Slots(t, id)| then t.batches[id].(size := |Slots(t, id)|) else t.batches[id],
    generations := map item | item in t.generations.Keys + (set s | s in t.members :: s.item) ::
      var highest := HighestGeneration(t, item);
      if item in t.generations && highest <= t.generations[item] then t.generations[item] else highest)
  }

  function Apply(t: Tables, ev: Event): Effect {
    match ev
    case Claim(_, _, _, _, _, _, _) => ClaimTx(t, ev)
    case Fetch(_, _, _) => FetchTx(t, ev)
    case Heartbeat(_, _, _, _, _) => HeartbeatTx(t, ev)
    case OwnsFence(f, now) => var r := Reclaim(t, now); Effect(r, Answer(OwnsActive(r, f)), [])
    case Complete(_, _, _, _, _, _, _) => CompleteTx(t, ev)
    case Stats(_, _, _) => StatsTx(t, ev)
    case Restart => Effect(Reseed(t), Nothing, [])
  }
}

/** The exact-review queue seen at one moment: who is admitted, and when to look again. */
module QueueAdmission {
  import opened Ordering

  datatype State = Pending | Dispatching | Leased | Parked

  /** Times that are zero are absent. `scheduled` is the lane of the item's decision, `leaseScheduled`
      that of the decision its running lease was given for. */
  datatype Item = Item(
    key: int,
    createdAt: int,
    publication: bool,
    state: State,
    nextAttemptAt: int,
    leaseExpiresAt: int,
    heartbeatAt: int,
    dispatchedAt: int,
    finalizing: bool,
    claimed: bool,
    target: string,
    owner: string,
    number: int,
    scheduled: bool,
    leaseScheduled: Option<bool>,
    directLifecycle: bool,
    terminalFinal: bool,
    shardRecovery: bool,
    publishes: Option<int>,
    recoveryAt: Option<int>,
    terminalCheckAt: Option<int>,
    terminalCheckedAt: int) {
    predicate Active() { state.Dispatching? || state.Leased? }
    predicate Batchable() { publication && !terminalFinal && !directLifecycle }
    predicate OwnerScheduled() { if leaseScheduled.Some? then leaseScheduled.value else scheduled }
  }

  datatype Queue = Queue(
    items: seq<Item>,
    circuits: map<string, int>,
    paused: bool,
    retryAt: int,
    checkedAt: int,
    excluded: set<int>,
    stale: set<int>)

  datatype Limits = Limits(review: int, target: int, publication: int, scheduled: int, dispatchMs: int, graceMs: int)

  const RETRY_MS := 30000
  const CHECK_INTERVAL_MS := 300000
  const WAKE_MS := 1000

  /** A heartbeat shortens a running lease, a slow dispatch an unclaimed publication's. */
  function Lease(i: Item, l: Limits): int {
    if i.leaseExpiresAt != 0 && i.state.Leased? && i.heartbeatAt != 0 && !i.finalizing then
      Min(i.leaseExpiresAt, i.heartbeatAt + l.graceMs)
    else if i.leaseExpiresAt == 0 || !i.state.Dispatching? || !i.publication || i.claimed || i.dispatchedAt == 0 then i.leaseExpiresAt
    else Min(i.leaseExpiresAt, i.dispatchedAt + l.dispatchMs)
  }

  // ----- the census -----

  /** A failed shard's recovery waits for the publication that owns its item. */
  predicate HandedOff(q: Queue, i: Item) {
    && i.state.Pending? && i.shardRecovery
    && exists p | p in q.items :: p.publication && !p.state.Parked? && p.publishes == Some(i.key)
  }

  predicate Eligible(q: Queue, i: Item) {
    i.state.Pending? && i.key !in q.excluded && !(i.publication && i.key in q.stale) && !HandedOff(q, i)
  }

  predicate PausedAt(q: Queue, now: int) { q.paused && q.retryAt > now }

  function CircuitAt(q: Queue, owner: string, now: int): int {
    if owner in q.circuits && q.circuits[owner] > now then q.circuits[owner] else 0
  }

  function ActiveReviews(items: seq<Item>): nat {
    if items == [] then 0
    else ActiveReviews(items[..|items| - 1]) + if items[|items| - 1].Active() && !items[|items| - 1].publication then 1 else 0
  }

  function ActivePublishers(items: seq<Item>): nat {
    if items == [] then 0
    else ActivePublishers(items[..|items| - 1]) + if items[|items| - 1].Active() && items[|items| - 1].publication then 1 else 0
  }

  function ActiveScheduled(items: seq<Item>): nat {
    if items == [] then 0
    else
      var i := items[|items| - 1];
      ActiveScheduled(items[..|items| - 1]) + if i.Active() && !i.publication && i.OwnerScheduled() then 1 else 0
  }

  function ActiveTarget(items: seq<Item>, target: string): nat {
    if items == [] then 0
    else
      var i := items[|items| - 1];
      ActiveTarget(items[..|items| - 1], target) + if i.Active() && !i.publication && i.target == target then 1 else 0
  }

  ghost predicate KeysDistinct(q: Queue) {
    forall i, j | i in q.items && j in q.items && i.key == j.key :: i == j
  }

  function ReadyRanks(q: Queue, publication: bool, now: int): map<Item, Rank> {
    map i | i in q.items && i.publication == publication && Eligible(q, i) && i.nextAttemptAt <= now :: Rank(i.createdAt, i.key, 0)
  }

  lemma ReadyIsDistinct(q: Queue, publication: bool, now: int)
    requires KeysDistinct(q)
    ensures Distinct(ReadyRanks(q, publication, now))
  {
  }

  /** Oldest first. */
  function Ready(q: Queue, publication: bool, now: int): (ready: seq<Item>)
    requires KeysDistinct(q)
    ensures forall i :: i in ready <==> i in q.items && i.publication == publication && Eligible(q, i) && i.nextAttemptAt <= now
  {
    hide Eligible, KeysDistinct;
    ReadyIsDistinct(q, publication, now);
    Sorted(ReadyRanks(q, publication, now))
  }

  // ----- review admission -----

  function CountScheduled(items: seq<Item>): nat {
    if items == [] then 0
    else CountScheduled(items[..|items| - 1]) + if items[|items| - 1].scheduled then 1 else 0
  }

  function CountTarget(items: seq<Item>, target: string): nat {
    if items == [] then 0
    else CountTarget(items[..|items| - 1], target) + if items[|items| - 1].target == target then 1 else 0
  }

  function Slots(q: Queue, l: Limits): nat { Max(0, l.review - ActiveReviews(q.items)) }

  /** Why a review cannot join those already taken. */
  predicate Blocked(q: Queue, l: Limits, i: Item, taken: seq<Item>, now: int) {
    || (i.scheduled && ActiveScheduled(q.items) + CountScheduled(taken) >= l.scheduled)
    || CircuitAt(q, i.owner, now) > now
    || ActiveTarget(q.items, i.target) + CountTarget(taken, i.target) >= l.target
  }

  function TakeReviews(q: Queue, l: Limits, ready: seq<Item>, taken: seq<Item>, now: int): seq<Item>
    decreases |ready|
  {
    if ready == [] || |taken| >= Slots(q, l) then taken
    else TakeReviews(q, l, ready[1..], if Blocked(q, l, ready[0], taken, now) then taken else taken + [ready[0]], now)
  }

  // ----- publication admission -----

  function Fresh(items: seq<Item>, keys: set<int>): seq<Item> {
    if items == [] then []
    else Fresh(items[..|items| - 1], keys) + if items[|items| - 1].key in keys then [items[|items| - 1]] else []
  }

  function Historical(items: seq<Item>, keys: set<int>): seq<Item> {
    if items == [] then []
    else Historical(items[..|items| - 1], keys) + if items[|items| - 1].key in keys then [] else [items[|items| - 1]]
  }

  /** A reserve of fresh items goes first, the other fresh ones last. */
  function Prioritize(items: seq<Item>, keys: set<int>, reserve: nat): seq<Item> {
    var recent := Fresh(items, keys);
    var historical := Historical(items, keys);
    if reserve == 0 || keys == {} || recent == [] || historical == [] then items
    else Limit(recent, reserve) + historical + recent[|Limit(recent, reserve)|..]
  }

  datatype Publishing = Publishing(blocked: bool, unique: bool, freshKeys: set<int>, reserve: nat)

  predicate SameRecord(i: Item, j: Item) { i.target == j.target && i.number == j.number }

  predicate HeldBack(i: Item, p: Publishing) { p.blocked && i.Batchable() }

  predicate Duplicate(i: Item, p: Publishing, taken: seq<Item>) {
    p.unique && exists j | j in taken :: SameRecord(i, j)
  }

  function TakePublications(active: nat, l: Limits, p: Publishing, ready: seq<Item>, taken: seq<Item>): seq<Item>
    decreases |ready|
  {
    if ready == [] then taken
    else if HeldBack(ready[0], p) then TakePublications(active, l, p, ready[1..], taken)
    else if active + |taken| >= l.publication then taken
    else TakePublications(active, l, p, ready[1..], if Duplicate(ready[0], p, taken) then taken else taken + [ready[0]])
  }

  datatype Admitted = Admitted(reviews: seq<Item>, publications: seq<Item>)

  function Admission(q: Queue, l: Limits, p: Publishing, now: int): Admitted
    requires KeysDistinct(q)
  {
    if PausedAt(q, now) then Admitted([], [])
    else
      Admitted(
        TakeReviews(q, l, Ready(q, false, now), [], now),
        TakePublications(ActivePublishers(q.items), l, p, Prioritize(Ready(q, true, now), p.freshKeys, p.reserve), []))
  }

  // ----- when to look again -----

  /** An active item without a lease, or with one that has run out. */
  predicate Overdue(i: Item, l: Limits, now: int) {
    i.Active() && (i.leaseExpiresAt == 0 || Lease(i, l) <= now)
  }

  predicate LiveLease(i: Item, l: Limits, publication: bool, now: int) {
    i.Active() && i.publication == publication && Lease(i, l) != 0 && Lease(i, l) > now
  }

  function ReviewWakes(q: Queue, l: Limits, now: int): set<int> {
    set i | i in q.items && LiveLease(i, l, false, now) :: Lease(i, l)
  }

  function PublisherWakes(q: Queue, l: Limits, now: int): set<int> {
    set i | i in q.items && LiveLease(i, l, true, now) :: Lease(i, l)
  }

  function ScheduledWakes(q: Queue, l: Limits, now: int): set<int> {
    set i | i in q.items && LiveLease(i, l, false, now) && i.OwnerScheduled() :: Lease(i, l)
  }

  function TargetWakes(q: Queue, l: Limits, target: string, now: int): set<int> {
    set i | i in q.items && LiveLease(i, l, false, now) && i.target == target :: Lease(i, l)
  }

  function WhenFull(full: bool, wakes: set<int>): Option<int> {
    if full && wakes != {} then Some(LeastOf(wakes)) else None
  }

  /** When a full set of publishers is first worth looking at again. */
  function PublicationWake(q: Queue, l: Limits, now: int): Option<int> {
    if ActivePublishers(q.items) < l.publication then None
    else
      var wakes := if l.publication <= 0 then PublisherWakes(q, l, now) + ReviewWakes(q, l, now) else PublisherWakes(q, l, now);
      Some(if wakes != {} then LeastOf(wakes) else now + RETRY_MS)
  }

  function PublicationAt(q: Queue, l: Limits, i: Item, now: int, blockedUntil: Option<int>): int {
    if blockedUntil.Some? && blockedUntil.value > now then Max(i.nextAttemptAt, blockedUntil.value)
    else Max(i.nextAttemptAt, OrElse(PublicationWake(q, l, now), i.nextAttemptAt))
  }

  function CapacityWake(q: Queue, l: Limits, target: string, now: int): Option<int> {
    var review := WhenFull(ActiveReviews(q.items) >= l.review, ReviewWakes(q, l, now));
    var byTarget := WhenFull(ActiveTarget(q.items, target) >= l.target, TargetWakes(q, l, target, now));
    if review.None? then byTarget else if byTarget.None? then review else Some(Min(review.value, byTarget.value))
  }

  function ReviewAt(q: Queue, l: Limits, i: Item, now: int, gate: Option<int>): int {
    var scheduled := WhenFull(ActiveScheduled(q.items) >= l.scheduled, ScheduledWakes(q, l, now));
    var a := Max(i.nextAttemptAt, OrElse(gate, i.nextAttemptAt));
    var b := Max(CircuitAt(q, i.owner, now), OrElse(CapacityWake(q, l, i.target, now), i.nextAttemptAt));
    Max(Max(a, b), if i.scheduled then OrElse(scheduled, i.nextAttemptAt) else i.nextAttemptAt)
  }

  function ItemAt(q: Queue, l: Limits, i: Item, now: int, blockedUntil: Option<int>, gate: Option<int>): int {
    if PausedAt(q, now) then q.retryAt
    else if i.publication then PublicationAt(q, l, i, now, blockedUntil)
    else ReviewAt(q, l, i, now, gate)
  }

  function LastChecked(items: seq<Item>, checkedAt: int): int {
    if items == [] then checkedAt
    else Max(LastChecked(items[..|items| - 1], checkedAt), items[|items| - 1].terminalCheckedAt)
  }

  function TerminalAt(q: Queue, i: Item, now: int): int
    requires i.terminalCheckAt.Some?
  {
    Max(Max(i.terminalCheckAt.value, LastChecked(q.items, q.checkedAt) + CHECK_INTERVAL_MS), if PausedAt(q, now) then q.retryAt else 0)
  }

  /** Every moment worth waking for. */
  function Wakes(q: Queue, l: Limits, now: int, blockedUntil: Option<int>, gate: Option<int>): set<int> {
    (set i | i in q.items && Eligible(q, i) :: ItemAt(q, l, i, now, blockedUntil, gate))
    + (set i | i in q.items && i.state.Parked? && i.recoveryAt.Some? :: i.recoveryAt.value)
    + (set i | i in q.items && i.state.Parked? && i.terminalCheckAt.Some? :: TerminalAt(q, i, now))
    + ReviewWakes(q, l, now) + PublisherWakes(q, l, now)
  }

  function NextWake(q: Queue, l: Limits, now: int, blockedUntil: Option<int>, gate: Option<int>): Option<int> {
    if q.items == [] then None
    else if exists i | i in q.items :: Overdue(i, l, now) then Some(now + WAKE_MS)
    else
      var wakes := Wakes(q, l, now, blockedUntil, gate);
      if wakes == {} then None else Some(Max(now + WAKE_MS, LeastOf(wakes)))
  }
}

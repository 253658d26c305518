/** The lifecycle projection: append-only facts about one admitted revision, its terminal history,
    and the attempts to acknowledge the command that asked for it. */
module Lifecycle {
  import opened Ordering

  datatype Identity = Identity(target: string, fence: string, revision: int)

  datatype Disposition = Routed | Superseded | Requeue | DeadLetter | TargetClosed | TargetMissing
    | PolicyNoop | GuardedOpen | Failure

  datatype LifeState = LifePending | Completed | AckPending | AckSkipped | LifeSuperseded | Requeued
    | DeadLettered | Closed | Missing | Noop | Guarded | Failed

  datatype AckState = NotRequired | AckIsPending | AckObserved | SkippedLocked | SkippedMissing | Unavailable

  datatype SkipReason = LockedConversation | MissingStatusComment

  /** Where a command's status is written. */
  datatype Address = Address(marker: Option<string>, comment: Option<int>)

  datatype Admission = Admission(delivery: string, sourceDelivery: Option<string>, action: string, command: bool,
                                 address: Address, lineage: Option<Identity>, triggeredAt: Option<int>, admittedAt: int)

  datatype Claim = Claim(generation: int, run: string, attempt: Option<int>, claimedAt: int)

  datatype ReviewResult = ReviewResult(generation: int, run: string, attempt: Option<int>, outcome: string, observedAt: int)

  datatype Effect = Effect(comment: int, digest: string, observedAt: int)

  datatype CanonicalOutcome = CanonicalAccepted | CanonicalDeduped | CanonicalSuperseded

  datatype CanonicalReceipt = CanonicalReceipt(outcome: CanonicalOutcome, id: string, observedAt: int)

  datatype RouterReceipt = RouterReceipt(durable: bool, id: string, observedAt: int, complete: bool)

  datatype Skip = Skip(reason: SkipReason, observedAt: int)

  datatype Attempt = Attempt(id: int, address: Address, attemptedAt: int,
                             failedAt: Option<int>, expiredAt: Option<int>, skip: Option<Skip>) {
    predicate Active() { failedAt.None? && expiredAt.None? && skip.None? }
  }

  datatype Observed = Observed(marker: Option<string>, command: int, completion: int, observedAt: int)

  datatype Terminal = Terminal(kind: Disposition, observedAt: int)

  datatype Operation = Operation(id: string, kind: Disposition)

  datatype Projection = Projection(
    admission: Admission,
    claims: seq<Claim>,
    results: seq<ReviewResult>,
    effect: Option<Effect>,
    canonical: seq<CanonicalReceipt>,
    routers: seq<RouterReceipt>,
    router: Option<RouterReceipt>,
    attempts: seq<Attempt>,
    observed: Option<Observed>,
    history: seq<Terminal>,
    operations: seq<Operation>,
    current: Option<Terminal>,
    updatedAt: int) {
    predicate Required() { admission.command }
  }

  const LEASE_MS := 300000
  const PARKED_CANCEL := "parked-command-closure-cancelled:v1"

  // ----- derived states -----

  predicate Cancelled(p: Projection) {
    exists o | o in p.operations :: o.id == PARKED_CANCEL && (o.kind.Failure? || o.kind.Requeue?)
  }

  /** The last attempt that was skipped for good. */
  function LastSkip(attempts: seq<Attempt>): Option<Skip> {
    if attempts == [] then None
    else if attempts[|attempts| - 1].skip.Some? then attempts[|attempts| - 1].skip
    else LastSkip(attempts[..|attempts| - 1])
  }

  predicate Accepted(p: Projection) { exists r | r in p.canonical :: !r.outcome.CanonicalSuperseded? }

  function StateOf(p: Projection): LifeState {
    if p.current.None? then LifePending
    else
      match p.current.value.kind
      case Superseded => LifeSuperseded
      case Requeue => Requeued
      case DeadLetter => DeadLettered
      case TargetClosed => Closed
      case TargetMissing => Missing
      case PolicyNoop => Noop
      case GuardedOpen => Guarded
      case Failure => Failed
      case Routed =>
        if !Accepted(p) || p.router.None? then LifePending
        else if p.Required() && p.observed.None? then
          if LastSkip(p.attempts).Some? then AckSkipped else AckPending
        else Completed
  }

  function AckOf(p: Projection): AckState {
    if !p.Required() then NotRequired
    else if p.observed.Some? then AckObserved
    else if Cancelled(p) then Unavailable
    else if LastSkip(p.attempts).Some? then
      if LastSkip(p.attempts).value.reason.MissingStatusComment? then SkippedMissing else SkippedLocked
    else if p.current.None? then Unavailable
    else if p.current.value.kind.Routed? then
      if StateOf(p).AckPending? then AckIsPending else Unavailable
    else if p.current.value.kind.Requeue? then Unavailable
    else AckIsPending
  }

  // ----- facts -----

  /** None reports a conflicting fact; the projection is then not written. */
  function AddClaim(p: Projection, c: Claim): Projection {
    if exists d | d in p.claims :: d.(claimedAt := 0) == c.(claimedAt := 0) then p else p.(claims := p.claims + [c])
  }

  function AddResult(p: Projection, r: ReviewResult): Projection {
    if exists d | d in p.results :: d.(observedAt := 0) == r.(observedAt := 0) then p else p.(results := p.results + [r])
  }

  function AddEffect(p: Projection, e: Effect): Option<Projection> {
    if p.effect.None? then Some(p.(effect := Some(e)))
    else if p.effect.value.(observedAt := 0) == e.(observedAt := 0) then Some(p)
    else None
  }

  function FindReceipt(q: seq<CanonicalReceipt>, id: string): Option<CanonicalReceipt> {
    if q == [] then None else if q[0].id == id then Some(q[0]) else FindReceipt(q[1..], id)
  }

  function AddReceipt(p: Projection, r: CanonicalReceipt): Option<Projection> {
    var existing := FindReceipt(p.canonical, r.id);
    if existing.None? then Some(p.(canonical := p.canonical + [r]))
    else if existing.value.outcome == r.outcome then Some(p)
    else None
  }

  function FindRouter(q: seq<RouterReceipt>, id: string): Option<nat>
    ensures FindRouter(q, id).Some? ==> FindRouter(q, id).value < |q| && q[FindRouter(q, id).value].id == id
  {
    if q == [] then None
    else if q[0].id == id then Some(0)
    else
      var rest := FindRouter(q[1..], id);
      if rest.None? then None else Some(rest.value + 1)
  }

  datatype Recording = Recorded(projection: Projection, duplicate: bool) | Conflict

  function AddRouter(p: Projection, r: RouterReceipt): Recording {
    var i := FindRouter(p.routers, r.id);
    if i.Some? && p.routers[i.value].durable != r.durable then Conflict
    else if p.router.Some? && p.router.value.durable != r.durable then Conflict
    else if i.Some? && (p.routers[i.value].complete || !r.complete) then Recorded(p, true)
    else
      var routers := if i.None? then p.routers + [r] else p.routers[i.value := p.routers[i.value].(complete := true)];
      Recorded(p.(routers := routers, router := if p.router.Some? then p.router else Some(r)), false)
  }

  // ----- terminal history -----

  function Push(p: Projection, t: Terminal): Projection { p.(history := p.history + [t], current := Some(t)) }

  function FindOperation(q: seq<Operation>, id: string): Option<Operation> {
    if q == [] then None else if q[0].id == id then Some(q[0]) else FindOperation(q[1..], id)
  }

  function ApplyTerminal(p: Projection, t: Terminal): Option<Projection> {
    if p.current.None? then Some(Push(p, t))
    else if p.current.value.kind == t.kind then Some(p)
    else if !t.kind.Requeue? && !p.current.value.kind.Requeue? then None
    else Some(Push(p, t))
  }

  function RecordTerminal(p: Projection, t: Terminal, operation: Option<string>): Recording {
    var known := if operation.Some? then FindOperation(p.operations, operation.value) else None;
    if known.Some? then if known.value.kind == t.kind then Recorded(p, true) else Conflict
    else
      var applied := ApplyTerminal(p, t);
      if applied.None? then Conflict
      else if operation.None? then Recorded(applied.value, false)
      else Recorded(applied.value.(operations := applied.value.operations + [Operation(operation.value, t.kind)]), false)
  }

  function CancelParked(p: Projection, at: int): Recording {
    if Cancelled(p) then Recorded(p, true)
    else if !p.Required() || p.observed.Some?
            || (p.current.Some? && !p.current.value.kind.TargetClosed? && !p.current.value.kind.Requeue? && !p.current.value.kind.Failure?)
    then Conflict
    else
      var q := Push(p, Terminal(Failure, at));
      Recorded(q.(operations := q.operations + [Operation(PARKED_CANCEL, Failure)]), false)
  }

  // ----- acknowledgement attempts -----

  predicate LeaseOver(a: Attempt, now: int) { a.Active() && now - a.attemptedAt >= LEASE_MS }

  function Expire(attempts: seq<Attempt>, now: int): (r: seq<Attempt>)
    ensures |r| == |attempts|
  {
    if attempts == [] then []
    else
      var last := attempts[|attempts| - 1];
      Expire(attempts[..|attempts| - 1], now) + [if LeaseOver(last, now) then last.(expiredAt := Some(now)) else last]
  }

  predicate AnyActive(attempts: seq<Attempt>) { exists a | a in attempts :: a.Active() }

  datatype Authorizing = Authorizing(projection: Projection, allowed: bool, attempt: int)

  /** A refusal writes nothing, not even the expiries it found. */
  function Authorize(p: Projection, address: Address, now: int): Authorizing {
    if !AckOf(p).AckIsPending? || p.admission.address != address then Authorizing(p, false, 0)
    else
      var attempts := Expire(p.attempts, now);
      if AnyActive(attempts) then Authorizing(p, false, 0)
      else
        var id := |attempts| + 1;
        Authorizing(p.(attempts := attempts + [Attempt(id, address, now, None, None, None)], updatedAt := now), true, id)
  }

  /** The latest attempt with this identifier and address; an active one, if asked. */
  function LastAttempt(attempts: seq<Attempt>, id: int, address: Address, active: bool): Option<nat>
    ensures LastAttempt(attempts, id, address, active).Some? ==>
              var i := LastAttempt(attempts, id, address, active).value;
              i < |attempts| && attempts[i].id == id && attempts[i].address == address && (active ==> attempts[i].Active())
  {
    if attempts == [] then None
    else
      var last := attempts[|attempts| - 1];
      if last.id == id && last.address == address && (active ==> last.Active()) then Some(|attempts| - 1)
      else LastAttempt(attempts[..|attempts| - 1], id, address, active)
  }

  datatype Ending = Ending(projection: Projection, done: bool)

  function FailAttempt(p: Projection, id: int, address: Address, now: int): Ending {
    var i := LastAttempt(p.attempts, id, address, true);
    if i.None? || p.observed.Some? then Ending(p, false)
    else
      Ending(p.(attempts := p.attempts[i.value := p.attempts[i.value].(failedAt := Some(now))], updatedAt := now), true)
  }

  function SkipAttempt(p: Projection, id: int, address: Address, reason: SkipReason, now: int): Ending {
    var i := LastAttempt(p.attempts, id, address, false);
    if i.None? || p.observed.Some? then Ending(p, false)
    else
      var a := p.attempts[i.value];
      if a.skip.Some? then Ending(p, a.skip.value.reason == reason)
      else if !a.Active() then Ending(p, false)
      else
        Ending(p.(attempts := p.attempts[i.value := a.(skip := Some(Skip(reason, now)))], updatedAt := now), true)
  }

  // ----- observing an acknowledgement -----

  /** `review` is given when the observer knows the exact revision. */
  datatype Sighting = Sighting(target: string, review: Option<Identity>, marker: Option<string>, command: int,
                               completion: int, status: Option<int>, exact: bool, observedAt: int)

  predicate AttemptMatches(a: Attempt, s: Sighting) {
    && (s.status.None? || a.address.comment == s.status)
    && (|| (a.address.comment == Some(s.completion)
            && (a.address.marker == s.marker || a.address.marker.None? || (!s.exact && s.marker.None?)))
        || (s.exact && a.address.comment.None? && s.marker.Some? && a.address.marker == s.marker)
        || (!s.exact && s.marker.Some? && a.address.marker == s.marker))
  }

  predicate Sees(p: Projection, s: Sighting) {
    (exists a | a in p.attempts :: AttemptMatches(a, s)) && p.Required() && !Cancelled(p)
  }

  predicate Exactly(p: Projection, s: Sighting) {
    exists a | a in p.attempts :: a.address.comment == Some(s.completion)
  }

  type Projections = map<Identity, Projection>

  function Seen(ps: Projections, s: Sighting): set<Identity> {
    set i | i in ps && i.target == s.target && (s.review.None? || s.review.value == i) && Sees(ps[i], s)
  }

  /** The projections a sighting may be recorded on: those seen, narrowed to the exact status
      comment when an anonymous sighting saw several. */
  function Narrowed(ps: Projections, s: Sighting): set<Identity> {
    var seen := Seen(ps, s);
    if s.review.None? && |seen| > 1 then set i | i in seen && Exactly(ps[i], s) else seen
  }

  function ObservedBy(s: Sighting): Observed { Observed(s.marker, s.command, s.completion, s.observedAt) }

  datatype Noting = Noted(projections: Projections, accepted: Option<Identity>) | Contradicted

  function Observe(ps: Projections, s: Sighting): Noting {
    var chosen := Narrowed(ps, s);
    if |chosen| != 1 then Noted(ps, None)
    else
      var i := TheOnly(chosen);
      var p := ps[i];
      var next := ObservedBy(s);
      if p.observed.Some? && p.observed.value.(observedAt := 0) != next.(observedAt := 0) then Contradicted
      else
        Noted(ps[i := p.(observed := Some(if p.observed.Some? then p.observed.value else next), updatedAt := s.observedAt)], Some(i))
  }

  function TheOnly(s: set<Identity>): (i: Identity)
    requires |s| == 1
    ensures s == {i}
  {
    assert s != {};
    assert forall x, y | x in s && y in s :: x == y by {
      forall x, y | x in s && y in s ensures x == y {
        assert |s - {x}| == 0;
        assert y !in s - {x};
      }
    }
    var i :| i in s;
    i
  }

  // ----- one step of the store -----

  datatype Event =
    | Admit(id: Identity, admission: Admission)
    | AddedClaim(id: Identity, claim: Claim, now: int)
    | AddedResult(id: Identity, result: ReviewResult, now: int)
    | AddedEffect(id: Identity, effect: Effect, now: int)
    | AddedReceipt(id: Identity, receipt: CanonicalReceipt, now: int)
    | AddedRouter(id: Identity, router: RouterReceipt, now: int)
    | Terminated(id: Identity, terminal: Terminal, operation: Option<string>, now: int)
    | CancelledParked(id: Identity, at: int, now: int)
    | Authorized(id: Identity, address: Address, now: int)
    | FailedAttempt(id: Identity, attempt: int, address: Address, now: int)
    | SkippedAttempt(id: Identity, attempt: int, address: Address, reason: SkipReason, now: int)
    | Sighted(sighting: Sighting)

  /** A stored projection is readable only while its operation identifiers are distinct. */
  predicate Readable(p: Projection) {
    forall i, j | 0 <= i < j < |p.operations| :: p.operations[i].id != p.operations[j].id
  }

  function Admitted(a: Admission): Projection {
    Projection(a, [], [], None, [], [], None, [], None, [], [], None, a.admittedAt)
  }

  function Stamped(p: Option<Projection>, before: Projection, now: int): Projection {
    if p.None? then before else p.value.(updatedAt := now)
  }

  function Settle(r: Recording, before: Projection, now: int): Projection {
    if r.Conflict? || r.duplicate then before else r.projection.(updatedAt := now)
  }

  /** What one event makes of a projection that is there. */
  function Change(p: Projection, ev: Event): Projection
    requires !ev.Admit? && !ev.Sighted?
  {
    match ev
    case AddedClaim(_, c, now) => AddClaim(p, c).(updatedAt := now)
    case AddedResult(_, r, now) => AddResult(p, r).(updatedAt := now)
    case AddedEffect(_, e, now) => Stamped(AddEffect(p, e), p, now)
    case AddedReceipt(_, r, now) => Stamped(AddReceipt(p, r), p, now)
    case AddedRouter(_, r, now) => Settle(AddRouter(p, r), p, now)
    case Terminated(_, t, operation, now) => Settle(RecordTerminal(p, t, operation), p, now)
    case CancelledParked(_, at, now) => Settle(CancelParked(p, at), p, now)
    case Authorized(_, address, now) => Authorize(p, address, now).projection
    case FailedAttempt(_, attempt, address, now) => FailAttempt(p, attempt, address, now).projection
    case SkippedAttempt(_, attempt, address, reason, now) => SkipAttempt(p, attempt, address, reason, now).projection
  }

  /** Errors leave the store as it was: a missing or unreadable projection, or a conflict. */
  function Step(ps: Projections, ev: Event): Projections {
    match ev
    case Admit(id, a) => if id in ps then ps else ps[id := Admitted(a)]
    case Sighted(s) =>
      if exists i | i in ps && i.target == s.target :: !Readable(ps[i]) then ps
      else
        var r := Observe(ps, s);
        if r.Contradicted? then ps else r.projections
    case _ => if ev.id in ps && Readable(ps[ev.id]) then ps[ev.id := Change(ps[ev.id], ev)] else ps
  }
}

/** The lifecycle projection store: each method reads one projection, changes it and writes it back. */
module LifecycleStore {
  import opened Ordering
  import opened Lifecycle
  import opened LifecycleSafety

  lemma SeenMeans(ps: Projections, s: Sighting, i: Identity)
    requires i in ps && i.target == s.target
    ensures i in Seen(ps, s) <==> (s.review.None? || s.review.value == i) && Sees(ps[i], s)
  {
    hide Sees;
  }

  lemma SeenAreRows(ps: Projections, s: Sighting)
    ensures forall i | i in Seen(ps, s) :: i in ps && i.target == s.target
  {
    hide Sees;
  }

  class Store {
    var projections: Projections

    constructor ()
      ensures projections == map[]
    {
      projections := map[];
    }

    predicate CanMutate(id: Identity)
      reads this
    {
      id in projections && Readable(projections[id])
    }

    /** Admission is recorded once; a repeat that agrees in every fact returns the stored one. */
    method RecordAdmission(id: Identity, a: Admission) returns (ok: bool)
      modifies this
      ensures projections == Step(old(projections), Admit(id, a))
      ensures ok <==> (id in old(projections) ==> old(CanMutate(id)) && SameAdmission(old(projections)[id].admission, a))
    {
      if id in projections {
        return CanMutate(id) && SameAdmission(projections[id].admission, a);
      }
      projections := projections[id := Admitted(a)];
      return true;
    }

    method RecordClaim(id: Identity, c: Claim, now: int) returns (ok: bool)
      modifies this
      ensures projections == Step(old(projections), AddedClaim(id, c, now))
      ensures ok == old(CanMutate(id))
    {
      if !CanMutate(id) {
        return false;
      }
      var p := projections[id];
      var i := 0;
      var found := false;
      while i < |p.claims| && !found
        invariant 0 <= i <= |p.claims|
        invariant found <==> exists j | 0 <= j < i :: p.claims[j].(claimedAt := 0) == c.(claimedAt := 0)
      {
        found := p.claims[i].(claimedAt := 0) == c.(claimedAt := 0);
        i := i + 1;
      }
      if !found {
        p := p.(claims := p.claims + [c]);
      }
      projections := projections[id := p.(updatedAt := now)];
      return true;
    }

    /** The first receipt under the identifier decides: another outcome conflicts, a repeat is dropped,
        and a completion is marked where the receipt stands. */
    method RecordRouterReceipt(id: Identity, r: RouterReceipt, now: int) returns (recording: Recording)
      modifies this
      ensures projections == Step(old(projections), AddedRouter(id, r, now))
      ensures recording == if old(CanMutate(id)) then AddRouter(old(projections)[id], r) else Conflict
    {
      hide FindRouter, Readable;
      if !CanMutate(id) {
        return Conflict;
      }
      var p := projections[id];
      assert projections[id := p] == projections;
      var i := 0;
      while i < |p.routers| && p.routers[i].id != r.id
        invariant 0 <= i <= |p.routers|
        invariant forall j | 0 <= j < i :: p.routers[j].id != r.id
      {
        i := i + 1;
      }
      FirstRouter(p.routers, r.id, i);
      var found := i < |p.routers|;
      if (found && p.routers[i].durable != r.durable) || (p.router.Some? && p.router.value.durable != r.durable) {
        return Conflict;
      }
      if found && (p.routers[i].complete || !r.complete) {
        return Recorded(p, true);
      }
      var q := p;
      if !found {
        q := q.(routers := q.routers + [r]);
      } else {
        q := q.(routers := q.routers[i := q.routers[i].(complete := true)]);
      }
      if q.router.None? {
        q := q.(router := Some(r));
      }
      projections := projections[id := q.(updatedAt := now)];
      return Recorded(q, false);
    }

    /** Writes a recording that is neither a duplicate nor a conflict. */
    method Write(id: Identity, recording: Recording, now: int)
      requires id in projections && (recording.Recorded? && recording.duplicate ==> recording.projection == projections[id])
      modifies this
      ensures projections == old(projections)[id := Settle(recording, old(projections)[id], now)]
    {
      assert projections[id := projections[id]] == projections;
      if recording.Recorded? && !recording.duplicate {
        projections := projections[id := recording.projection.(updatedAt := now)];
      }
    }

    method RecordTerminalDisposition(id: Identity, t: Terminal, operation: Option<string>, now: int) returns (recording: Recording)
      modifies this
      ensures projections == Step(old(projections), Terminated(id, t, operation, now))
      ensures recording == if old(CanMutate(id)) then RecordTerminal(old(projections)[id], t, operation) else Conflict
    {
      hide ApplyTerminal;
      if !CanMutate(id) {
        return Conflict;
      }
      var p := projections[id];
      if operation.Some? {
        var known := FindKnown(p.operations, operation.value);
        if known.Some? {
          recording := if known.value.kind == t.kind then Recorded(p, true) else Conflict;
          Write(id, recording, now);
          return;
        }
      }
      var applied := ApplyTerminal(p, t);
      if applied.None? {
        recording := Conflict;
      } else {
        var q := applied.value;
        if operation.Some? {
          q := q.(operations := q.operations + [Operation(operation.value, t.kind)]);
        }
        recording := Recorded(q, false);
      }
      Write(id, recording, now);
    }

    method FindKnown(operations: seq<Operation>, id: string) returns (known: Option<Operation>)
      ensures known == FindOperation(operations, id)
    {
      var i := 0;
      while i < |operations|
        invariant 0 <= i <= |operations|
        invariant FindOperation(operations[i..], id) == FindOperation(operations, id)
      {
        assert operations[i..][1..] == operations[i + 1..];
        if operations[i].id == id {
          return Some(operations[i]);
        }
        i := i + 1;
      }
      return None;
    }

    /** Looks for the reserved operation first: a closure is cancelled once. */
    method CancelParkedCommandClosure(id: Identity, at: int, now: int) returns (recording: Recording)
      modifies this
      ensures projections == Step(old(projections), CancelledParked(id, at, now))
      ensures recording == if old(CanMutate(id)) then CancelParked(old(projections)[id], at) else Conflict
    {
      hide Readable;
      if !CanMutate(id) {
        return Conflict;
      }
      var p := projections[id];
      assert projections[id := p] == projections;
      var i := 0;
      while i < |p.operations|
        invariant 0 <= i <= |p.operations|
        invariant forall j | 0 <= j < i ::
                    !(p.operations[j].id == PARKED_CANCEL && (p.operations[j].kind.Failure? || p.operations[j].kind.Requeue?))
      {
        var o := p.operations[i];
        if o.id == PARKED_CANCEL && (o.kind.Failure? || o.kind.Requeue?) {
          assert o in p.operations;
          return Recorded(p, true);
        }
        i := i + 1;
      }
      assert !Cancelled(p);
      var kind := if p.current.Some? then p.current.value.kind else Requeue;
      if !p.admission.command || p.observed.Some? || !(kind.TargetClosed? || kind.Requeue? || kind.Failure?) {
        return Conflict;
      }
      var terminal := Terminal(Failure, at);
      var q := p.(history := p.history + [terminal], current := Some(terminal));
      q := q.(operations := q.operations + [Operation(PARKED_CANCEL, Failure)]);
      projections := projections[id := q.(updatedAt := now)];
      return Recorded(q, false);
    }

    /** Ends the attempts whose lease has run out, in place, and looks for one still alive. */
    method ExpireAttempts(attempts: seq<Attempt>, now: int) returns (expired: seq<Attempt>, active: bool)
      ensures expired == Expire(attempts, now)
      ensures active <==> AnyActive(expired)
    {
      expired, active := [], false;
      var i := 0;
      while i < |attempts|
        invariant 0 <= i <= |attempts|
        invariant expired == Expire(attempts[..i], now)
        invariant active <==> AnyActive(expired)
      {
        assert attempts[..i + 1][..i] == attempts[..i];
        var a := attempts[i];
        if LeaseOver(a, now) {
          a := a.(expiredAt := Some(now));
        }
        active := active || a.Active();
        expired := expired + [a];
        i := i + 1;
      }
      assert attempts[..|attempts|] == attempts;
    }

    method AuthorizeCommandAcknowledgement(id: Identity, address: Address, now: int) returns (allowed: bool, attempt: int)
      modifies this
      ensures projections == Step(old(projections), Authorized(id, address, now))
      ensures if old(CanMutate(id)) then
                var r := Authorize(old(projections)[id], address, now);
                allowed == r.allowed && attempt == r.attempt
              else !allowed && attempt == 0
    {
      hide AckOf, AnyActive, Expire;
      if !CanMutate(id) {
        return false, 0;
      }
      var p := projections[id];
      assert projections[id := p] == projections;
      if !AckOf(p).AckIsPending? || p.admission.address != address {
        return false, 0;
      }
      var attempts, active := ExpireAttempts(p.attempts, now);
      if active {
        return false, 0;
      }
      attempt := |attempts| + 1;
      p := p.(attempts := attempts + [Attempt(attempt, address, now, None, None, None)], updatedAt := now);
      projections := projections[id := p];
      return true, attempt;
    }

    /** Searches from the latest attempt back. */
    method FindAttempt(attempts: seq<Attempt>, id: int, address: Address, active: bool) returns (found: Option<nat>)
      ensures found == LastAttempt(attempts, id, address, active)
    {
      var i := |attempts|;
      assert attempts[..i] == attempts;
      while i > 0
        invariant 0 <= i <= |attempts|
        invariant LastAttempt(attempts[..i], id, address, active) == LastAttempt(attempts, id, address, active)
      {
        assert attempts[..i][..i - 1] == attempts[..i - 1];
        var a := attempts[i - 1];
        if a.id == id && a.address == address && (active ==> a.Active()) {
          return Some(i - 1);
        }
        i := i - 1;
      }
      return None;
    }

    method RecordCommandAcknowledgementFailure(id: Identity, attempt: int, address: Address, now: int) returns (released: bool)
      modifies this
      ensures projections == Step(old(projections), Event.FailedAttempt(id, attempt, address, now))
      ensures released <==> old(CanMutate(id)) && FailAttempt(old(projections)[id], attempt, address, now).done
    {
      hide LastAttempt;
      if !CanMutate(id) {
        return false;
      }
      var p := projections[id];
      assert projections[id := p] == projections;
      var i := FindAttempt(p.attempts, attempt, address, true);
      if i.None? || p.observed.Some? {
        return false;
      }
      p := p.(attempts := p.attempts[i.value := p.attempts[i.value].(failedAt := Some(now))], updatedAt := now);
      projections := projections[id := p];
      return true;
    }

    method RecordCommandAcknowledgementTerminalSkip(id: Identity, attempt: int, address: Address, reason: SkipReason, now: int)
      returns (skipped: bool)
      modifies this
      ensures projections == Step(old(projections), SkippedAttempt(id, attempt, address, reason, now))
      ensures skipped <==> old(CanMutate(id)) && SkipAttempt(old(projections)[id], attempt, address, reason, now).done
    {
      hide LastAttempt;
      if !CanMutate(id) {
        return false;
      }
      var p := projections[id];
      assert projections[id := p] == projections;
      var i := FindAttempt(p.attempts, attempt, address, false);
      if i.None? || p.observed.Some? {
        return false;
      }
      var a := p.attempts[i.value];
      if a.skip.Some? {
        return a.skip.value.reason == reason;
      }
      if !a.Active() {
        return false;
      }
      p := p.(attempts := p.attempts[i.value := a.(skip := Some(Skip(reason, now)))], updatedAt := now);
      projections := projections[id := p];
      return true;
    }

    /** Looks through every projection of the target; None is an unreadable one. */
    method SeenProjections(s: Sighting) returns (seen: Option<set<Identity>>)
      ensures seen.None? <==> exists i | i in projections && i.target == s.target :: !Readable(projections[i])
      ensures seen.Some? ==> seen.value == Seen(projections, s)
    {
      hide *;
      var rows := set i | i in projections && i.target == s.target;
      var left := rows;
      var matched: set<Identity> := {};
      while left != {}
        invariant left <= rows
        invariant matched <= rows - left
        invariant forall i | i in rows && i !in left :: i in matched <==> i in Seen(projections, s)
        invariant forall i | i in rows && i !in left :: Readable(projections[i])
        decreases |left|
      {
        var i := AnyRow(left);
        if !Readable(projections[i]) {
          return None;
        }
        SeenMeans(projections, s, i);
        if (s.review.None? || s.review.value == i) && Sees(projections[i], s) {
          matched := matched + {i};
        }
        left := left - {i};
      }
      SeenAreRows(projections, s);
      assert matched == Seen(projections, s);
      return Some(matched);
    }

    /** `ok` is false where the source throws: an unreadable projection, or a contradiction. */
    method ObserveCommandAcknowledgement(s: Sighting) returns (ok: bool, accepted: Option<Identity>)
      modifies this
      ensures projections == Step(old(projections), Sighted(s))
      ensures ok <==> (forall i | i in old(projections) && i.target == s.target :: Readable(old(projections)[i]))
                      && Observe(old(projections), s).Noted?
      ensures accepted == if ok then Observe(old(projections), s).accepted else None
    {
      hide Sees, Readable, Exactly;
      var seen := SeenProjections(s);
      if seen.None? {
        return false, None;
      }
      var chosen := seen.value;
      if s.review.None? && |chosen| > 1 {
        chosen := set i | i in chosen && Exactly(projections[i], s);
      }
      assert chosen == Narrowed(projections, s);
      if |chosen| != 1 {
        return true, None;
      }
      var id := TheOnly(chosen);
      NarrowedAreThere(projections, s);
      assert id in chosen;
      var p := projections[id];
      var next := ObservedBy(s);
      if p.observed.Some? && p.observed.value.(observedAt := 0) != next.(observedAt := 0) {
        return false, None;
      }
      projections := projections[id := p.(observed := Some(if p.observed.Some? then p.observed.value else next), updatedAt := s.observedAt)];
      return true, Some(id);
    }
  }

  lemma {:induction false} FirstRouter(q: seq<RouterReceipt>, id: string, i: nat)
    requires i <= |q| && (forall j | 0 <= j < i :: q[j].id != id) && (i < |q| ==> q[i].id == id)
    ensures FindRouter(q, id) == if i < |q| then Some(i) else None
    decreases |q|
  {
    if q != [] && i > 0 {
      FirstRouter(q[1..], id, i - 1);
    }
  }

  /** A row without a trigger time accepts any. */
  predicate SameAdmission(stored: Admission, a: Admission) {
    && stored.lineage == a.lineage && stored.delivery == a.delivery && stored.sourceDelivery == a.sourceDelivery
    && stored.action == a.action && stored.command == a.command && stored.address == a.address
    && (stored.triggeredAt.Some? ==> stored.triggeredAt.value == if a.triggeredAt.Some? then a.triggeredAt.value else a.admittedAt)
  }
}

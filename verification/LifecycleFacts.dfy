/** What each recording does to a projection, and what its states mean, told from the recorded facts. */
module LifecycleFacts {
  import opened Ordering
  import opened Lifecycle
  import opened LifecycleSafety

  // ----- states -----

  ghost predicate WasSkipped(p: Projection) { exists a | a in p.attempts :: a.skip.Some? }

  ghost predicate WasAccepted(p: Projection) {
    exists r | r in p.canonical :: r.outcome.CanonicalAccepted? || r.outcome.CanonicalDeduped?
  }

  ghost predicate ClosureCancelled(p: Projection) {
    exists o | o in p.operations :: o.id == "parked-command-closure-cancelled:v1" && (o.kind.Failure? || o.kind.Requeue?)
  }

  /** A revision counts as completed exactly when it was routed, its publication accepted, its handoff
      taken, and its command, if there is one, acknowledged. */
  lemma CompletedExactlyWhen(p: Projection)
    ensures StateOf(p).Completed? <==>
              && p.current.Some? && p.current.value.kind.Routed?
              && WasAccepted(p) && p.router.Some? && (p.admission.command ==> p.observed.Some?)
  {
    AcceptedMeans(p);
  }

  lemma AcceptedMeans(p: Projection)
    ensures Accepted(p) <==> WasAccepted(p)
  {
    forall r | r in p.canonical ensures !r.outcome.CanonicalSuperseded? <==> r.outcome.CanonicalAccepted? || r.outcome.CanonicalDeduped? {}
  }

  /** An acknowledgement is due exactly while a command is neither observed, skipped for good nor called
      off, and its revision has ended: routed, accepted and handed over, or in any other way but a requeue. */
  lemma AckIsDueExactlyWhen(p: Projection)
    ensures AckOf(p).AckIsPending? <==>
              && p.admission.command && p.observed.None? && !WasSkipped(p) && !ClosureCancelled(p) && p.current.Some?
              && !p.current.value.kind.Requeue?
              && (p.current.value.kind.Routed? ==> WasAccepted(p) && p.router.Some?)
  {
    AcceptedMeans(p);
    LastSkipFinds(p.attempts);
  }

  /** Every disposition other than routed is a state of its own; a routed revision is pending until it is
      accepted and handed over, and then waits for its command's acknowledgement unless that was skipped. */
  lemma StatesAreTheDispositions(p: Projection)
    ensures p.current.None? ==> StateOf(p).LifePending?
    ensures p.current.Some? && !p.current.value.kind.Routed? ==>
              StateOf(p) == map[Superseded := LifeSuperseded, Requeue := Requeued, DeadLetter := DeadLettered, TargetClosed := Closed,
                                TargetMissing := Missing, PolicyNoop := Noop, GuardedOpen := Guarded, Failure := Failed][p.current.value.kind]
    ensures p.current.Some? && p.current.value.kind.Routed? ==>
              && (StateOf(p).LifePending? <==> !WasAccepted(p) || p.router.None?)
              && (StateOf(p).AckPending? || StateOf(p).AckSkipped? ==> p.admission.command && p.observed.None?)
              && (StateOf(p).AckSkipped? ==> WasSkipped(p)) && (StateOf(p).AckPending? ==> !WasSkipped(p))
  {
    AcceptedMeans(p);
    LastSkipFinds(p.attempts);
  }

  /** The other answers: none is asked for without a command; an observation comes first, then a closure
      that was called off, then a skip with its reason; else it is not to be had yet. */
  lemma AckStatesExactly(p: Projection)
    requires AttemptsSound(p.attempts)
    ensures AckOf(p).NotRequired? <==> !p.admission.command
    ensures AckOf(p).AckObserved? <==> p.admission.command && p.observed.Some?
    ensures var open := p.admission.command && p.observed.None? && !ClosureCancelled(p);
            && (AckOf(p).SkippedMissing? <==> open && exists a | a in p.attempts :: a.skip.Some? && a.skip.value.reason.MissingStatusComment?)
            && (AckOf(p).SkippedLocked? <==> open && exists a | a in p.attempts :: a.skip.Some? && a.skip.value.reason.LockedConversation?)
  {
    LastSkipFinds(p.attempts);
    LastSkipIsTheOne(p.attempts);
  }

  lemma {:induction false} LastSkipIsOne(q: seq<Attempt>)
    ensures LastSkip(q).Some? ==> exists a | a in q :: a.skip == LastSkip(q)
    decreases |q|
  {
    if q != [] {
      assert q[|q| - 1] in q;
      LastSkipIsOne(q[..|q| - 1]);
      assert forall a | a in q[..|q| - 1] :: a in q;
    }
  }

  lemma LastSkipIsTheOne(q: seq<Attempt>)
    requires AttemptsSound(q)
    ensures forall a | a in q && a.skip.Some? :: a.skip == LastSkip(q)
  {
    LastSkipFinds(q);
    LastSkipIsOne(q);
    forall a | a in q && a.skip.Some? ensures a.skip == LastSkip(q) {
      var b :| b in q && b.skip == LastSkip(q);
      var i :| 0 <= i < |q| && q[i] == a;
      var j :| 0 <= j < |q| && q[j] == b;
      AtMostOneActiveOneSkipped(q, i, j);
    }
  }

  // ----- facts -----

  /** A revision is admitted once, with nothing recorded yet. */
  lemma AdmissionIsRecorded(ps: Projections, id: Identity, a: Admission)
    ensures var u := Step(ps, Admit(id, a));
            if id in ps then u == ps
            else
              && id in u && u == ps[id := u[id]]
              && u[id].admission == a && u[id].updatedAt == a.admittedAt && u[id].current.None?
              && u[id].effect.None? && u[id].router.None? && u[id].observed.None?
              && |u[id].claims| + |u[id].results| + |u[id].canonical| + |u[id].routers| + |u[id].attempts| + |u[id].history|
                 + |u[id].operations| == 0
  {
  }

  /** A claim and a result are appended unless the same is there, an effect is kept once, and a receipt is
      appended once under its identifier; only a different effect, or another outcome of a receipt, is
      refused. */
  lemma ClaimIsRecorded(p: Projection, c: Claim)
    ensures var known := exists d | d in p.claims :: d.generation == c.generation && d.run == c.run && d.attempt == c.attempt;
            AddClaim(p, c) == if known then p else p.(claims := p.claims + [c])
  {
    forall d | d in p.claims ensures d.(claimedAt := 0) == c.(claimedAt := 0)
      <==> (d.generation == c.generation && d.run == c.run && d.attempt == c.attempt) {}
  }

  lemma ResultIsRecorded(p: Projection, r: ReviewResult)
    ensures var known := exists d | d in p.results ::
              d.generation == r.generation && d.run == r.run && d.attempt == r.attempt && d.outcome == r.outcome;
            AddResult(p, r) == if known then p else p.(results := p.results + [r])
  {
    forall d | d in p.results ensures d.(observedAt := 0) == r.(observedAt := 0)
      <==> (d.generation == r.generation && d.run == r.run && d.attempt == r.attempt && d.outcome == r.outcome) {}
  }

  lemma EffectIsRecorded(p: Projection, e: Effect)
    ensures AddEffect(p, e) ==
            if p.effect.None? then Some(p.(effect := Some(e)))
            else if p.effect.value.comment == e.comment && p.effect.value.digest == e.digest then Some(p) else None
  {
  }

  ghost predicate ReceiptsDistinct(p: Projection) {
    forall i, j | 0 <= i < j < |p.canonical| :: p.canonical[i].id != p.canonical[j].id
  }

  lemma {:induction false} FindReceiptFinds(q: seq<CanonicalReceipt>, id: string)
    ensures FindReceipt(q, id).None? <==> forall r | r in q :: r.id != id
    ensures FindReceipt(q, id).Some? ==> FindReceipt(q, id).value in q && FindReceipt(q, id).value.id == id
    decreases |q|
  {
    if q != [] {
      FindReceiptFinds(q[1..], id);
      assert forall r :: r in q <==> r == q[0] || r in q[1..];
    }
  }

  lemma ReceiptIsRecorded(p: Projection, r: CanonicalReceipt)
    requires ReceiptsDistinct(p)
    ensures var q := AddReceipt(p, r);
            && (q.None? <==> exists x | x in p.canonical :: x.id == r.id && x.outcome != r.outcome)
            && (q.Some? ==>
                  && ReceiptsDistinct(q.value)
                  && q.value.canonical == (if exists x | x in p.canonical :: x.id == r.id then p.canonical else p.canonical + [r])
                  && q.value == p.(canonical := q.value.canonical))
  {
    FindReceiptFinds(p.canonical, r.id);
    hide FindReceipt;
    forall x, y | x in p.canonical && y in p.canonical && x.id == y.id ensures x == y {
      var i :| 0 <= i < |p.canonical| && p.canonical[i] == x;
      var j :| 0 <= j < |p.canonical| && p.canonical[j] == y;
    }
    assert forall i | 0 <= i < |p.canonical| :: p.canonical[i] in p.canonical;
  }

  // ----- terminal dispositions -----

  /** A disposition under a known operation is a repeat or a conflict. Under a new one it conflicts with
      another current disposition unless one of the two is a requeue; a repeat of the current one adds
      nothing to the history, any other is its new end. */
  lemma TerminalIsRecorded(p: Projection, t: Terminal, operation: Option<string>)
    requires Readable(p)
    ensures var r := RecordTerminal(p, t, operation);
            var known := operation.Some? && exists o | o in p.operations :: o.id == operation.value;
            var same := p.current.Some? && p.current.value.kind == t.kind;
            if known then
              if (exists o | o in p.operations :: o.id == operation.value && o.kind == t.kind) then r == Recorded(p, true) else r.Conflict?
            else if p.current.Some? && !same && !t.kind.Requeue? && !p.current.value.kind.Requeue? then r.Conflict?
            else
              r == Recorded(p.(history := if same then p.history else p.history + [t],
                               current := if same then p.current else Some(t),
                               operations := if operation.Some? then p.operations + [Operation(operation.value, t.kind)] else p.operations),
                            false)
  {
    if operation.Some? {
      FindOperationFinds(p.operations, operation.value);
      forall x, y | x in p.operations && y in p.operations && x.id == y.id ensures x == y {
        var i :| 0 <= i < |p.operations| && p.operations[i] == x;
        var j :| 0 <= j < |p.operations| && p.operations[j] == y;
      }
    }
    hide FindOperation;
  }

  /** A parked closure can be called off while its command is unobserved and it has ended by a closed
      target, a requeue, a failure or not at all: it is then a failure, under the reserved operation. */
  lemma CancellationIsRecorded(p: Projection, at: int)
    ensures var r := CancelParked(p, at);
            var open := p.current.None? || p.current.value.kind.TargetClosed? || p.current.value.kind.Requeue? || p.current.value.kind.Failure?;
            if ClosureCancelled(p) then r == Recorded(p, true)
            else if p.admission.command && p.observed.None? && open then
              r == Recorded(p.(history := p.history + [Terminal(Failure, at)], current := Some(Terminal(Failure, at)),
                               operations := p.operations + [Operation("parked-command-closure-cancelled:v1", Failure)]),
                            false)
            else r.Conflict?
  {
    assert Cancelled(p) <==> ClosureCancelled(p);
  }

  // ----- attempts -----

  /** An authorized attempt is appended under the next number, live from now on, after every attempt that
      was live for five minutes has been put down as expired; a refusal changes nothing. */
  lemma AuthorizationIsRecorded(p: Projection, address: Address, now: int, i: nat)
    ensures var r := Authorize(p, address, now);
            && (!r.allowed ==> r == Authorizing(p, false, 0))
            && (r.allowed ==>
                  && r.attempt == |p.attempts| + 1 && |r.projection.attempts| == |p.attempts| + 1
                  && r.projection.attempts[|p.attempts|] == Attempt(r.attempt, address, now, None, None, None)
                  && r.projection == p.(attempts := r.projection.attempts, updatedAt := now)
                  && (i < |p.attempts| ==>
                        var a := p.attempts[i];
                        r.projection.attempts[i] ==
                          if a.failedAt.None? && a.expiredAt.None? && a.skip.None? && now - a.attemptedAt >= 300000
                          then a.(expiredAt := Some(now)) else a))
  {
    hide AckOf;
    if i < |p.attempts| { ExpireIsPointwise(p.attempts, now, i); }
  }

  /** A terminal skip is granted to the named attempt while nothing was observed and it is live, which it
      ends for good, or was skipped for the same reason before; no other attempt changes. */
  lemma SkippedExactlyWhen(p: Projection, id: int, address: Address, reason: SkipReason, now: int)
    requires AttemptsSound(p.attempts)
    ensures var r := SkipAttempt(p, id, address, reason, now);
            var named := 1 <= id <= |p.attempts| && p.attempts[id - 1].address == address;
            && (r.done <==> p.observed.None? && named
                            && (p.attempts[id - 1].Active() || (p.attempts[id - 1].skip.Some? && p.attempts[id - 1].skip.value.reason == reason)))
            && r.projection ==
                 if r.done && p.attempts[id - 1].Active()
                 then p.(attempts := p.attempts[id - 1 := p.attempts[id - 1].(skip := Some(Skip(reason, now)))], updatedAt := now)
                 else p
  {
    LastAttemptFinds(p.attempts, id, address, false);
    hide LastAttempt;
    var i := LastAttempt(p.attempts, id, address, false);
    if i.Some? {
      assert p.attempts[i.value].id == i.value + 1;
    } else if 1 <= id <= |p.attempts| {
      assert p.attempts[id - 1].id == id && p.attempts[id - 1] in p.attempts;
    }
  }

  // ----- sightings -----

  /** A sighting by an exact observer means an attempt at the very comment, under its marker or none, or
      one without a comment under the same marker. */
  lemma ExactSightingsMatch(a: Attempt, s: Sighting)
    requires s.exact
    ensures AttemptMatches(a, s) <==>
              && (s.status.None? || a.address.comment == s.status)
              && (if a.address.comment == Some(s.completion) then a.address.marker == s.marker || a.address.marker.None?
                  else a.address.comment.None? && s.marker.Some? && a.address.marker == s.marker)
  {
  }

  /** Any other means an attempt under the same marker, or at the very comment where one of the two has
      no marker. */
  lemma LooseSightingsMatch(a: Attempt, s: Sighting)
    requires !s.exact
    ensures AttemptMatches(a, s) <==>
              && (s.status.None? || a.address.comment == s.status)
              && (|| (s.marker.Some? && a.address.marker == s.marker)
                  || (a.address.comment == Some(s.completion) && (s.marker.None? || a.address.marker.None?)))
  {
  }

  /** Of the projections an anonymous sighting may mean, several are narrowed to those with an attempt at
      the very comment. */
  lemma NarrowedExactlyWhen(ps: Projections, s: Sighting, i: Identity)
    ensures var others := exists j :: j in Seen(ps, s) && j != i;
            i in Narrowed(ps, s) <==>
              && i in Seen(ps, s)
              && (s.review.None? && others ==> exists a | a in ps[i].attempts :: a.address.comment == Some(s.completion))
  {
    hide Sees;
    var seen := Seen(ps, s);
    if i in seen {
      if j :| j in seen && j != i {
        TwoAreMoreThanOne(seen, i, j);
      } else {
        assert seen == {i};
      }
    }
  }

  /** A sighting is recorded on the one projection it means, where the first one stays; it is refused
      where that one holds another. */
  lemma SightingIsRecorded(ps: Projections, s: Sighting, i: Identity)
    requires Narrowed(ps, s) == {i}
    ensures i in ps
    ensures var p := ps[i];
            var differs := p.observed.Some? && (p.observed.value.marker != s.marker || p.observed.value.command != s.command
                                                || p.observed.value.completion != s.completion);
            Observe(ps, s) ==
            if differs then Contradicted
            else
              Noted(ps[i := p.(observed := if p.observed.Some? then p.observed
                                           else Some(Observed(s.marker, s.command, s.completion, s.observedAt)),
                               updatedAt := s.observedAt)], Some(i))
  {
    hide Narrowed, Sees, Exactly;
    NarrowedAreThere(ps, s);
    assert |{i}| == 1;
    assert TheOnly(Narrowed(ps, s)) == i by { assert TheOnly(Narrowed(ps, s)) in {i}; }
  }

  /** An unreadable projection of the target blocks every sighting of it. */
  lemma UnreadableBlocksSightings(ps: Projections, s: Sighting, i: Identity)
    requires i in ps && i.target == s.target && !Readable(ps[i])
    ensures Step(ps, Sighted(s)) == ps
  {
    hide Readable;
  }

  lemma UnclearSightingIsDropped(ps: Projections, s: Sighting)
    requires |Narrowed(ps, s)| != 1
    ensures Observe(ps, s) == Noted(ps, None)
  {
  }
}

/** What holds of every projection over every run: at most one live acknowledgement attempt and at
    most one skip, a constrained terminal history, and facts that are never taken back. */
module LifecycleSafety {
  import opened Ordering
  import opened Lifecycle

  // ----- acknowledgement attempts -----

  ghost predicate EndsOnce(a: Attempt) {
    && (a.failedAt.Some? ==> a.expiredAt.None? && a.skip.None?)
    && (a.expiredAt.Some? ==> a.skip.None? && a.expiredAt.value - a.attemptedAt >= LEASE_MS)
  }

  /** Identifiers 1 to n in order, each attempt ended at most once and an expired one only after its
      lease, all but the last ended, and a skip only at the last. */
  ghost predicate AttemptsSound(q: seq<Attempt>) {
    && (forall i | 0 <= i < |q| :: q[i].id == i + 1 && EndsOnce(q[i]))
    && (forall i | 0 <= i < |q| - 1 :: !q[i].Active() && q[i].skip.None?)
  }

  lemma AtMostOneActiveOneSkipped(q: seq<Attempt>, i: nat, j: nat)
    requires AttemptsSound(q) && i < |q| && j < |q|
    ensures q[i].Active() && q[j].Active() ==> i == j
    ensures q[i].skip.Some? && q[j].skip.Some? ==> i == j
    ensures q[i].skip.Some? ==> !q[j].Active()
  {
  }

  lemma {:induction false} LastSkipFinds(q: seq<Attempt>)
    ensures LastSkip(q).Some? <==> exists a | a in q :: a.skip.Some?
  {
    if q != [] {
      LastSkipFinds(q[..|q| - 1]);
      assert q == q[..|q| - 1] + [q[|q| - 1]];
    }
  }

  lemma {:induction false} ExpireIsPointwise(q: seq<Attempt>, now: int, i: nat)
    requires i < |q|
    ensures Expire(q, now)[i] == if LeaseOver(q[i], now) then q[i].(expiredAt := Some(now)) else q[i]
    decreases |q|
  {
    if i < |q| - 1 {
      ExpireIsPointwise(q[..|q| - 1], now, i);
    }
  }

  lemma AuthorizeKeepsAttempts(p: Projection, address: Address, now: int)
    requires AttemptsSound(p.attempts)
    ensures AttemptsSound(Authorize(p, address, now).projection.attempts)
    ensures Authorize(p, address, now).allowed ==> forall a | a in p.attempts :: a.skip.None?
  {
    hide StateOf, Cancelled;
    var r := Authorize(p, address, now);
    LastSkipFinds(p.attempts);
    if r.allowed {
      var q := Expire(p.attempts, now);
      forall i | 0 <= i < |q|
        ensures q[i].id == i + 1 && EndsOnce(q[i]) && !q[i].Active() && q[i].skip.None?
      {
        ExpireIsPointwise(p.attempts, now, i);
        assert q[i] in q && p.attempts[i] in p.attempts;
      }
    }
  }

  lemma EndingKeepsAttempts(p: Projection, id: int, address: Address, reason: SkipReason, now: int)
    requires AttemptsSound(p.attempts)
    ensures AttemptsSound(FailAttempt(p, id, address, now).projection.attempts)
    ensures AttemptsSound(SkipAttempt(p, id, address, reason, now).projection.attempts)
  {
    hide LastAttempt;
  }

  // ----- terminal history -----

  /** Neither of two neighbours is a requeue. */
  predicate Jump(h: seq<Terminal>, i: nat)
    requires i + 1 < |h|
  {
    !h[i].kind.Requeue? && !h[i + 1].kind.Requeue?
  }

  /** The current disposition is the last of the history; neighbours include a requeue except at one
      place at most, which a cancelled closure explains. */
  ghost predicate HistorySound(p: Projection) {
    && (p.current == if p.history == [] then None else Some(p.history[|p.history| - 1]))
    && (forall i, j | 0 <= i < |p.history| - 1 && 0 <= j < |p.history| - 1 && Jump(p.history, i) && Jump(p.history, j) :: i == j)
    && ((exists i | 0 <= i < |p.history| - 1 :: Jump(p.history, i)) ==> Cancelled(p))
    && (forall i | 0 <= i < |p.history| - 1 && Jump(p.history, i) :: p.history[i + 1].kind.Failure?)
  }

  lemma PushOverRequeue(p: Projection, t: Terminal)
    requires HistorySound(p) && (p.current.None? || p.current.value.kind.Requeue? || t.kind.Requeue?)
    ensures HistorySound(Push(p, t))
  {
    var q := Push(p, t);
    assert Cancelled(q) == Cancelled(p);
    forall i | 0 <= i < |q.history| - 1 && Jump(q.history, i) ensures i < |p.history| - 1 && Jump(p.history, i) {}
  }

  lemma ApplyKeepsHistory(p: Projection, t: Terminal)
    requires HistorySound(p) && ApplyTerminal(p, t).Some?
    ensures HistorySound(ApplyTerminal(p, t).value)
  {
    hide HistorySound, Push;
    if ApplyTerminal(p, t).value != p {
      PushOverRequeue(p, t);
    }
  }

  lemma MoreOperationsKeepHistory(p: Projection, o: Operation)
    requires HistorySound(p)
    ensures HistorySound(p.(operations := p.operations + [o]))
  {
    var q := p.(operations := p.operations + [o]);
    if Cancelled(p) {
      var x :| x in p.operations && x.id == PARKED_CANCEL && (x.kind.Failure? || x.kind.Requeue?);
      assert x in q.operations;
    }
  }

  lemma TerminalKeepsHistory(p: Projection, t: Terminal, operation: Option<string>)
    requires HistorySound(p) && RecordTerminal(p, t, operation).Recorded?
    ensures HistorySound(RecordTerminal(p, t, operation).projection)
  {
    hide HistorySound, ApplyTerminal, FindOperation;
    var r := RecordTerminal(p, t, operation).projection;
    if r != p && ApplyTerminal(p, t).Some? {
      ApplyKeepsHistory(p, t);
      if operation.Some? {
        MoreOperationsKeepHistory(ApplyTerminal(p, t).value, Operation(operation.value, t.kind));
      }
    }
  }

  lemma CancelKeepsHistory(p: Projection, at: int)
    requires HistorySound(p) && CancelParked(p, at).Recorded?
    ensures HistorySound(CancelParked(p, at).projection)
  {
    var q := CancelParked(p, at).projection;
    if !Cancelled(p) {
      assert Operation(PARKED_CANCEL, Failure) in q.operations && Cancelled(q);
      forall i | 0 <= i < |p.history| - 1 ensures !Jump(p.history, i) {}
      forall i | 0 <= i < |q.history| - 1 && Jump(q.history, i) ensures i == |p.history| - 1 && q.history[i + 1].kind.Failure? {
        assert i < |p.history| - 1 ==> Jump(p.history, i);
      }
    }
  }

  // ----- facts are never taken back -----

  /** One attempt later on: the same attempt, with every end it had. */
  ghost predicate AttemptKept(a: Attempt, b: Attempt) {
    && b.id == a.id && b.address == a.address && b.attemptedAt == a.attemptedAt
    && (a.failedAt.Some? ==> b.failedAt == a.failedAt)
    && (a.expiredAt.Some? ==> b.expiredAt == a.expiredAt)
    && (a.skip.Some? ==> b.skip == a.skip)
  }

  ghost predicate AttemptsKept(a: seq<Attempt>, b: seq<Attempt>) {
    |a| <= |b| && forall i | 0 <= i < |a| :: AttemptKept(a[i], b[i])
  }

  ghost predicate RoutersKept(a: seq<RouterReceipt>, b: seq<RouterReceipt>) {
    && |a| <= |b|
    && (forall i | 0 <= i < |a| :: b[i].(complete := a[i].complete) == a[i] && (a[i].complete ==> b[i].complete))
  }

  ghost predicate Grows(a: Projection, b: Projection) {
    && b.admission == a.admission
    && a.claims <= b.claims && a.results <= b.results && a.canonical <= b.canonical
    && a.history <= b.history && a.operations <= b.operations
    && (a.effect.Some? ==> b.effect == a.effect)
    && (a.router.Some? ==> b.router == a.router)
    && (a.observed.Some? ==> b.observed == a.observed)
    && RoutersKept(a.routers, b.routers) && AttemptsKept(a.attempts, b.attempts)
  }

  lemma GrowsTransitive(a: Projection, b: Projection, c: Projection)
    requires Grows(a, b) && Grows(b, c)
    ensures Grows(a, c)
  {
    assert AttemptsKept(a.attempts, c.attempts);
    assert RoutersKept(a.routers, c.routers);
  }

  lemma GrowsItself(a: Projection)
    ensures Grows(a, a)
  {
  }

  lemma AuthorizeGrows(p: Projection, address: Address, now: int)
    ensures Grows(p, Authorize(p, address, now).projection)
  {
    hide AckOf, AnyActive;
    forall i | 0 <= i < |p.attempts| ensures AttemptKept(p.attempts[i], Expire(p.attempts, now)[i]) {
      ExpireIsPointwise(p.attempts, now, i);
    }
    hide LeaseOver;
  }

  lemma TerminalGrows(p: Projection, t: Terminal, operation: Option<string>)
    requires RecordTerminal(p, t, operation).Recorded?
    ensures Grows(p, RecordTerminal(p, t, operation).projection)
  {
    hide FindOperation;
  }

  lemma ChangeGrows(p: Projection, ev: Event)
    requires !ev.Admit? && !ev.Sighted?
    ensures Grows(p, Change(p, ev))
  {
    hide AckOf, AnyActive, Cancelled, FindRouter, FindReceipt, RecordTerminal, LastAttempt, Authorize;
    match ev
    case Authorized(_, address, now) => AuthorizeGrows(p, address, now);
    case Terminated(_, t, operation, now) =>
      if RecordTerminal(p, t, operation).Recorded? {
        TerminalGrows(p, t, operation);
      }
    case _ =>
  }

  // ----- router receipts -----

  /** One receipt per identifier, all of one outcome: that of the retained first handoff. */
  ghost predicate RoutersSound(p: Projection) {
    && (forall i, j | 0 <= i < j < |p.routers| :: p.routers[i].id != p.routers[j].id)
    && (p.router.None? <==> p.routers == [])
    && (forall r | r in p.routers :: p.router.Some? && r.durable == p.router.value.durable)
  }

  lemma {:induction false} FindRouterFinds(q: seq<RouterReceipt>, id: string)
    ensures FindRouter(q, id).None? <==> forall r | r in q :: r.id != id
    decreases |q|
  {
    if q != [] {
      FindRouterFinds(q[1..], id);
      assert forall r :: r in q <==> r == q[0] || r in q[1..];
    }
  }

  /** Recording a handoff: refused if its outcome differs from the one retained, silent if it says
      nothing new, and otherwise held exactly once, with nothing else changed. */
  lemma RouterRecordedExactly(p: Projection, r: RouterReceipt)
    requires RoutersSound(p)
    ensures var known := exists x | x in p.routers :: x.id == r.id;
            var settled := exists x | x in p.routers :: x.id == r.id && (r.complete ==> x.complete);
            var a := AddRouter(p, r);
            && (a.Conflict? <==> p.router.Some? && p.router.value.durable != r.durable)
            && (a.Recorded? ==>
                  && RoutersSound(a.projection)
                  && (a.duplicate <==> settled)
                  && (settled ==> a.projection == p)
                  && a.projection == p.(routers := a.projection.routers, router := a.projection.router)
                  && |a.projection.routers| == |p.routers| + (if known then 0 else 1)
                  && (exists x | x in a.projection.routers :: x.id == r.id && x.durable == r.durable && (r.complete ==> x.complete))
                  && (forall x | x in p.routers && x.id != r.id :: x in a.projection.routers))
  {
    FindRouterFinds(p.routers, r.id);
    hide FindRouter;
    var i := FindRouter(p.routers, r.id);
    var a := AddRouter(p, r);
    if i.Some? {
      var x := p.routers[i.value];
      assert x in p.routers && x.durable == p.router.value.durable;
      forall y | y in p.routers && y.id == r.id ensures y == x {
        var j :| 0 <= j < |p.routers| && p.routers[j] == y;
      }
      if a.Recorded? && !a.duplicate {
        RouterCompleted(p, i.value, a.projection);
      }
    } else if a.Recorded? {
      assert a.projection.routers[|p.routers|] == r;
    }
  }

  lemma RouterCompleted(p: Projection, i: nat, q: Projection)
    requires RoutersSound(p) && i < |p.routers| && q == p.(routers := p.routers[i := p.routers[i].(complete := true)])
    ensures RoutersSound(q) && q.routers[i] in q.routers
    ensures forall x | x in p.routers && x.id != p.routers[i].id :: x in q.routers
  {
    assert p.routers[i] in p.routers;
    forall r | r in q.routers ensures q.router.Some? && r.durable == q.router.value.durable {
      var j :| 0 <= j < |q.routers| && q.routers[j] == r;
      assert p.routers[j] in p.routers;
    }
    forall x | x in p.routers && x.id != p.routers[i].id ensures x in q.routers {
      var j :| 0 <= j < |p.routers| && p.routers[j] == x;
      assert q.routers[j] == x;
    }
  }

  lemma ChangeKeepsRouters(p: Projection, ev: Event)
    requires RoutersSound(p) && !ev.Admit? && !ev.Sighted?
    ensures RoutersSound(Change(p, ev))
  {
    hide AckOf, AnyActive, Cancelled, FindRouter, FindReceipt, FindOperation, LastAttempt, AddRouter, RoutersSound, Expire;
    var q := Change(p, ev);
    if ev.AddedRouter? {
      RouterRecordedExactly(p, ev.router);
      if AddRouter(p, ev.router).Recorded? {
        SameRoutersAreSound(AddRouter(p, ev.router).projection, q);
      }
    } else {
      SameRoutersAreSound(p, q);
    }
  }

  lemma SameRoutersAreSound(p: Projection, q: Projection)
    ensures RoutersSound(p) && q.routers == p.routers && q.router == p.router ==> RoutersSound(q)
  {
  }

  ghost predicate Sound(p: Projection) { AttemptsSound(p.attempts) && HistorySound(p) && RoutersSound(p) }

  lemma SameHistoryIsSound(p: Projection, q: Projection)
    requires HistorySound(p) && q.history == p.history && q.current == p.current && q.operations == p.operations
    ensures HistorySound(q)
  {
    assert Cancelled(q) == Cancelled(p);
  }

  lemma ChangeKeepsSound(p: Projection, ev: Event)
    requires Sound(p) && !ev.Admit? && !ev.Sighted?
    ensures Sound(Change(p, ev))
  {
    hide AckOf, AnyActive, Cancelled, FindRouter, FindReceipt, LastAttempt, HistorySound, AttemptsSound, RecordTerminal,
      CancelParked, Authorize, FailAttempt, SkipAttempt, RoutersSound;
    ChangeKeepsRouters(p, ev);
    var q := Change(p, ev);
    match ev
    case Authorized(_, address, now) =>
      AuthorizeKeepsAttempts(p, address, now);
      AuthorizeKeepsTerminals(p, address, now);
      SameHistoryIsSound(p, q);
    case FailedAttempt(_, attempt, address, now) =>
      EndingKeepsAttempts(p, attempt, address, LockedConversation, now);
      EndingKeepsTerminals(p, attempt, address, LockedConversation, now);
      SameHistoryIsSound(p, q);
    case SkippedAttempt(_, attempt, address, reason, now) =>
      EndingKeepsAttempts(p, attempt, address, reason, now);
      EndingKeepsTerminals(p, attempt, address, reason, now);
      SameHistoryIsSound(p, q);
    case Terminated(_, t, operation, now) =>
      TerminalKeepsAttempts(p, t, operation, 0);
      if RecordTerminal(p, t, operation).Recorded? {
        TerminalKeepsHistory(p, t, operation);
        SettledHistory(RecordTerminal(p, t, operation).projection, p, q);
      }
    case CancelledParked(_, at, now) =>
      TerminalKeepsAttempts(p, Terminal(Failure, 0), None, at);
      if CancelParked(p, at).Recorded? {
        CancelKeepsHistory(p, at);
        SettledHistory(CancelParked(p, at).projection, p, q);
      }
    case _ => SameHistoryIsSound(p, q);
  }

  lemma SettledHistory(r: Projection, p: Projection, q: Projection)
    requires HistorySound(r) && HistorySound(p) && (q == p || q == r.(updatedAt := q.updatedAt))
    ensures HistorySound(q)
  {
    if q != p {
      hide HistorySound;
      SameHistoryIsSound(r, q);
    }
  }

  lemma TerminalKeepsAttempts(p: Projection, t: Terminal, operation: Option<string>, at: int)
    ensures RecordTerminal(p, t, operation).Recorded? ==> RecordTerminal(p, t, operation).projection.attempts == p.attempts
    ensures CancelParked(p, at).Recorded? ==> CancelParked(p, at).projection.attempts == p.attempts
  {
    hide FindOperation, Cancelled;
  }

  lemma AuthorizeKeepsTerminals(p: Projection, address: Address, now: int)
    ensures var q := Authorize(p, address, now).projection;
            q.history == p.history && q.current == p.current && q.operations == p.operations
  {
    hide AckOf, AnyActive;
  }

  lemma EndingKeepsTerminals(p: Projection, id: int, address: Address, reason: SkipReason, now: int)
    ensures var q := FailAttempt(p, id, address, now).projection;
            q.history == p.history && q.current == p.current && q.operations == p.operations
    ensures var q := SkipAttempt(p, id, address, reason, now).projection;
            q.history == p.history && q.current == p.current && q.operations == p.operations
  {
    hide LastAttempt;
  }

  // ----- the store -----

  ghost predicate Inv(ps: Projections) { forall i | i in ps :: Sound(ps[i]) }

  ghost predicate AllGrow(a: Projections, b: Projections) {
    forall i | i in a :: i in b && Grows(a[i], b[i])
  }

  lemma ObserveKeeps(ps: Projections, s: Sighting)
    requires Inv(ps) && Observe(ps, s).Noted?
    ensures Inv(Observe(ps, s).projections) && AllGrow(ps, Observe(ps, s).projections)
  {
    hide HistorySound, AttemptsSound, Narrowed, Grows, RoutersSound;
    forall i | i in ps ensures Grows(ps[i], ps[i]) { GrowsItself(ps[i]); }
    var chosen := Narrowed(ps, s);
    if |chosen| == 1 {
      var i := TheOnly(chosen);
      assert i in chosen;
      assert i in ps by { NarrowedAreThere(ps, s); }
      var q := Observe(ps, s).projections[i];
      SameHistoryIsSound(ps[i], q);
      SameRoutersAreSound(ps[i], q);
      ObservedGrows(ps[i], q);
    }
  }

  lemma NarrowedAreThere(ps: Projections, s: Sighting)
    ensures forall i | i in Narrowed(ps, s) :: i in ps && Sees(ps[i], s) && i.target == s.target
  {
    hide Sees, Exactly;
  }

  lemma ObservedGrows(p: Projection, q: Projection)
    requires q == p.(observed := q.observed, updatedAt := q.updatedAt) && (p.observed.Some? ==> q.observed == p.observed)
    ensures Grows(p, q)
  {
  }

  lemma StepKeeps(ps: Projections, ev: Event)
    requires Inv(ps)
    ensures Inv(Step(ps, ev)) && AllGrow(ps, Step(ps, ev))
  {
    hide Sound, Grows, Change, Observe, Readable;
    forall i | i in ps ensures Grows(ps[i], ps[i]) { GrowsItself(ps[i]); }
    match ev
    case Admit(id, a) => AdmittedIsSound(a);
    case Sighted(s) =>
      if Observe(ps, s).Noted? {
        ObserveKeeps(ps, s);
      }
    case _ =>
      if ev.id in ps {
        ChangeKeepsSound(ps[ev.id], ev);
        ChangeGrows(ps[ev.id], ev);
      }
  }

  lemma AdmittedIsSound(a: Admission)
    ensures Sound(Admitted(a))
  {
  }

  ghost predicate Run(h: seq<Projections>, evs: seq<Event>) {
    |h| == |evs| + 1 && forall i | 0 <= i < |evs| :: h[i + 1] == Step(h[i], evs[i])
  }

  lemma {:induction false} RunKeeps(h: seq<Projections>, evs: seq<Event>, i: nat, j: nat)
    requires Run(h, evs) && Inv(h[0]) && i <= j < |h|
    ensures Inv(h[i]) && Inv(h[j]) && AllGrow(h[i], h[j])
    decreases j
  {
    hide Inv, Step, Grows;
    if j == 0 {
      forall x | x in h[0] ensures Grows(h[0][x], h[0][x]) { GrowsItself(h[0][x]); }
    } else if i < j {
      RunKeeps(h, evs, i, j - 1);
      StepKeeps(h[j - 1], evs[j - 1]);
      forall x | x in h[i] ensures x in h[j] && Grows(h[i][x], h[j][x]) {
        assert x in h[j - 1];
        GrowsTransitive(h[i][x], h[j - 1][x], h[j][x]);
      }
    } else {
      RunKeeps(h, evs, j - 1, j - 1);
      StepKeeps(h[j - 1], evs[j - 1]);
      forall x | x in h[j] ensures Grows(h[j][x], h[j][x]) { GrowsItself(h[j][x]); }
    }
  }

  // ----- acknowledgement authority -----

  ghost predicate AuthorityOver(p: Projection) {
    p.observed.Some? || Cancelled(p) || (exists a | a in p.attempts :: a.skip.Some?)
  }

  lemma AuthorityStaysOver(a: Projection, b: Projection)
    requires Grows(a, b) && AuthorityOver(a)
    ensures AuthorityOver(b)
  {
    if Cancelled(a) {
      var o :| o in a.operations && o.id == PARKED_CANCEL && (o.kind.Failure? || o.kind.Requeue?);
      assert o in b.operations;
    } else if a.observed.None? {
      var x :| x in a.attempts && x.skip.Some?;
      var i :| 0 <= i < |a.attempts| && a.attempts[i] == x;
      assert AttemptKept(a.attempts[i], b.attempts[i]);
      assert b.attempts[i] in b.attempts;
    }
  }

  lemma OverMeansRefused(p: Projection, address: Address, now: int)
    requires AuthorityOver(p)
    ensures Authorize(p, address, now) == Authorizing(p, false, 0)
  {
    LastSkipFinds(p.attempts);
    hide StateOf;
  }

  /** After an observation, a terminal skip or a cancelled closure, no attempt is ever authorized. */
  lemma NoAuthorityAfter(h: seq<Projections>, evs: seq<Event>, i: nat, j: nat, id: Identity, address: Address, now: int)
    requires Run(h, evs) && Inv(h[0]) && i <= j < |h| && id in h[i] && AuthorityOver(h[i][id])
    ensures id in h[j] && !Authorize(h[j][id], address, now).allowed
  {
    hide Run, Inv, Grows, AuthorityOver, Authorize;
    RunKeeps(h, evs, i, j);
    AuthorityStaysOver(h[i][id], h[j][id]);
    OverMeansRefused(h[j][id], address, now);
  }

  /** An attempt is authorized exactly when the acknowledgement is pending at the admitted address
      and every earlier attempt has ended or outlived its lease. */
  lemma AuthorizedExactlyWhen(p: Projection, address: Address, now: int)
    ensures Authorize(p, address, now).allowed <==>
              && AckOf(p).AckIsPending? && p.admission.address == address
              && (forall a | a in p.attempts :: !a.Active() || now - a.attemptedAt >= LEASE_MS)
  {
    hide AckOf;
    var q := Expire(p.attempts, now);
    forall i | 0 <= i < |q| ensures q[i] == if LeaseOver(p.attempts[i], now) then p.attempts[i].(expiredAt := Some(now)) else p.attempts[i] {
      ExpireIsPointwise(p.attempts, now, i);
    }
    if AnyActive(q) {
      var a :| a in q && a.Active();
      var i :| 0 <= i < |q| && q[i] == a;
      assert p.attempts[i] in p.attempts;
    } else {
      forall a | a in p.attempts ensures !a.Active() || now - a.attemptedAt >= LEASE_MS {
        var i :| 0 <= i < |p.attempts| && p.attempts[i] == a;
        assert q[i] in q;
      }
    }
  }

  /** In every reachable projection: identifiers in order, one live attempt at most, one end each,
      one skip at most. */
  lemma AttemptsStaySound(h: seq<Projections>, evs: seq<Event>, n: nat, id: Identity)
    requires Run(h, evs) && Inv(h[0]) && n < |h| && id in h[n]
    ensures AttemptsSound(h[n][id].attempts) && HistorySound(h[n][id]) && RoutersSound(h[n][id])
  {
    hide Run, AttemptsSound, HistorySound, RoutersSound, AllGrow;
    RunKeeps(h, evs, n, n);
    assert Sound(h[n][id]);
  }

  // ----- terminal history over runs -----

  lemma {:induction false} FindOperationFinds(q: seq<Operation>, id: string)
    ensures FindOperation(q, id).Some? <==> exists o | o in q :: o.id == id
    ensures FindOperation(q, id).Some? ==> FindOperation(q, id).value in q && FindOperation(q, id).value.id == id
  {
    if q != [] {
      FindOperationFinds(q[1..], id);
    }
  }

  /** Replaying a recorded operation, in any later state, changes nothing. */
  lemma ReplayIsNoOp(h: seq<Projections>, evs: seq<Event>, i: nat, j: nat, id: Identity, t: Terminal, operation: string, now: int)
    requires Run(h, evs) && Inv(h[0]) && i <= j < |h| && id in h[i]
    requires exists o | o in h[i][id].operations :: o.id == operation
    ensures Step(h[j], Terminated(id, t, Some(operation), now)) == h[j]
  {
    hide Run, Inv;
    RunKeeps(h, evs, i, j);
    var p := h[j][id];
    var o :| o in h[i][id].operations && o.id == operation;
    assert Grows(h[i][id], p) && o in p.operations;
    FindOperationFinds(p.operations, operation);
    hide ApplyTerminal, Readable;
    assert Change(p, Terminated(id, t, Some(operation), now)) == p;
    assert h[j][id := p] == h[j];
  }

  /** A handoff recorded in some state of a run, repeated in any later one, changes nothing; and no
      later handoff may have another outcome. */
  lemma RouterReplayIsNoOp(h: seq<Projections>, evs: seq<Event>, i: nat, j: nat, id: Identity, r: RouterReceipt, now: int)
    requires Run(h, evs) && Inv(h[0]) && i <= j < |h| && id in h[i]
    requires exists x | x in h[i][id].routers :: r.durable != x.durable || (x.id == r.id && (r.complete ==> x.complete))
    ensures Step(h[j], AddedRouter(id, r, now)) == h[j]
  {
    hide Run, AttemptsSound, HistorySound, AddRouter, Readable, AttemptsKept;
    RunKeeps(h, evs, i, j);
    var a, p := h[i][id], h[j][id];
    assert Sound(a) && Sound(p) && Grows(a, p);
    var x :| x in a.routers && (r.durable != x.durable || (x.id == r.id && (r.complete ==> x.complete)));
    var k :| 0 <= k < |a.routers| && a.routers[k] == x;
    var y := p.routers[k];
    assert y.(complete := x.complete) == x && (x.complete ==> y.complete);
    assert y in p.routers;
    RouterRecordedExactly(p, r);
    assert h[j][id := p] == h[j];
  }

  lemma CompletedFacts(a: Projection, b: Projection)
    requires Grows(a, b) && StateOf(a).Completed? && b.current.Some? && b.current.value.kind.Routed?
    ensures StateOf(b).Completed?
  {
    var r :| r in a.canonical && !r.outcome.CanonicalSuperseded?;
    assert r in b.canonical;
  }

  /** Once completed, a revision leaves that state only by a recorded requeue. */
  lemma OnlyRequeueLeavesCompleted(ps: Projections, ev: Event, id: Identity)
    requires Inv(ps) && id in ps && StateOf(ps[id]).Completed?
    ensures var u := Step(ps, ev);
            id in u && (!StateOf(u[id]).Completed? ==> ev.Terminated? && ev.id == id && ev.terminal.kind.Requeue? && StateOf(u[id]).Requeued?)
  {
    hide Inv, Step, StateOf, Grows;
    StepKeeps(ps, ev);
    var a, b := ps[id], Step(ps, ev)[id];
    assert Grows(a, b);
    CompletedIsRouted(a);
    CompletedTransitions(ps, ev, id);
    if b.current == a.current {
      CompletedFacts(a, b);
    }
    RequeuedState(b);
  }

  lemma RequeuedState(b: Projection)
    ensures b.current.Some? && b.current.value.kind.Requeue? ==> StateOf(b).Requeued?
  {
  }

  lemma CompletedIsRouted(a: Projection)
    requires StateOf(a).Completed?
    ensures a.current.Some? && a.current.value.kind.Routed?
  {
  }

  lemma CompletedTransitions(ps: Projections, ev: Event, id: Identity)
    requires id in ps && ps[id].current.Some? && ps[id].current.value.kind.Routed?
    ensures var u := Step(ps, ev);
            id in u && (u[id].current == ps[id].current
                        || (ev.Terminated? && ev.id == id && ev.terminal.kind.Requeue?
                            && u[id].current.Some? && u[id].current.value.kind.Requeue?))
  {
    hide AckOf, AnyActive, Cancelled, FindRouter, FindReceipt, FindOperation, LastAttempt, Readable, Narrowed, Observe;
    match ev
    case Sighted(s) => ObserveKeepsCurrent(ps, s, id);
    case _ =>
  }

  lemma ObserveKeepsCurrent(ps: Projections, s: Sighting, id: Identity)
    requires id in ps
    ensures Observe(ps, s).Noted? ==> id in Observe(ps, s).projections && Observe(ps, s).projections[id].current == ps[id].current
  {
    hide Narrowed;
    NarrowedAreThere(ps, s);
  }

  // ----- a reserved identifier -----

  /** Cancelling a parked closure leaves the stored projection readable exactly when its reserved
      operation identifier was not already recorded under a kind that does not count as cancelled. */
  lemma CancelStaysReadableExactlyWhen(p: Projection, at: int)
    requires Readable(p) && CancelParked(p, at).Recorded?
    ensures Readable(CancelParked(p, at).projection) <==>
              forall o | o in p.operations && o.id == PARKED_CANCEL :: o.kind.Failure? || o.kind.Requeue?
  {
    var q := CancelParked(p, at).projection;
    if Cancelled(p) {
      var c :| c in p.operations && c.id == PARKED_CANCEL && (c.kind.Failure? || c.kind.Requeue?);
      forall o | o in p.operations && o.id == PARKED_CANCEL ensures o == c {
        var i :| 0 <= i < |p.operations| && p.operations[i] == o;
        var j :| 0 <= j < |p.operations| && p.operations[j] == c;
      }
    } else {
      assert q.operations == p.operations + [Operation(PARKED_CANCEL, Failure)];
      if o :| o in p.operations && o.id == PARKED_CANCEL {
        var i :| 0 <= i < |p.operations| && p.operations[i] == o;
        assert q.operations[i].id == q.operations[|p.operations|].id;
        assert !Readable(q);
      } else {
        forall i, j | 0 <= i < j < |q.operations| ensures q.operations[i].id != q.operations[j].id {
          assert q.operations[i] in p.operations;
        }
      }
    }
  }

  /** Such a collision, concretely, over a run: admitted, closed under the reserved identifier, and
      cancelled, after which the projection can no longer be read. */
  lemma ReservedIdentifierCollides(id: Identity, a: Admission, at: int, now: int) returns (h: seq<Projections>, evs: seq<Event>)
    requires a.command
    ensures Run(h, evs) && |h| == 4 && h[0] == map[]
    ensures evs == [Admit(id, a), Terminated(id, Terminal(TargetClosed, at), Some(PARKED_CANCEL), now), CancelledParked(id, at, now)]
    ensures id in h[2] && Readable(h[2][id]) && h[2][id] == Change(Admitted(a), evs[1])
    ensures id in h[3] && !Readable(h[3][id])
  {
    var closed := Terminated(id, Terminal(TargetClosed, at), Some(PARKED_CANCEL), now);
    var cancelled := CancelledParked(id, at, now);
    evs := [Admit(id, a), closed, cancelled];
    var p := Change(Admitted(a), closed);
    assert p.operations == [Operation(PARKED_CANCEL, TargetClosed)] && p.current == Some(Terminal(TargetClosed, at));
    assert !Cancelled(p);
    var q := Change(p, cancelled);
    assert q.operations == [Operation(PARKED_CANCEL, TargetClosed), Operation(PARKED_CANCEL, Failure)];
    assert q.operations[0].id == q.operations[1].id;
    h := [map[], map[id := Admitted(a)], map[id := p], map[id := q]];
  }

  // ----- what an ending or a sighting touches -----

  lemma {:induction false} LastAttemptFinds(q: seq<Attempt>, id: int, address: Address, active: bool)
    ensures LastAttempt(q, id, address, active).None? <==>
              forall a | a in q :: !(a.id == id && a.address == address && (active ==> a.Active()))
    decreases |q|
  {
    if q != [] {
      LastAttemptFinds(q[..|q| - 1], id, address, active);
      assert q == q[..|q| - 1] + [q[|q| - 1]];
    }
  }

  /** A failure is released iff nothing was observed and the named attempt is live; it ends that
      attempt and changes no other. */
  lemma ReleasedExactlyWhen(p: Projection, id: int, address: Address, now: int)
    requires AttemptsSound(p.attempts)
    ensures var r := FailAttempt(p, id, address, now);
            && (r.done <==> p.observed.None? && exists a | a in p.attempts :: a.id == id && a.address == address && a.Active())
            && (!r.done ==> r.projection == p)
            && (r.done ==> 1 <= id <= |p.attempts| && |r.projection.attempts| == |p.attempts|
                           && r.projection.attempts[id - 1] == p.attempts[id - 1].(failedAt := Some(now))
                           && forall i | 0 <= i < |p.attempts| && i != id - 1 :: r.projection.attempts[i] == p.attempts[i])
  {
    hide LastAttempt;
    LastAttemptFinds(p.attempts, id, address, true);
  }

  /** A sighting is recorded on a projection that asked for it, and an anonymous one only where no
      other projection could have been meant. */
  lemma SightingsAreUnambiguous(ps: Projections, s: Sighting, i: Identity, j: Identity)
    requires Observe(ps, s).Noted? && Observe(ps, s).accepted == Some(i)
    ensures i in ps && Sees(ps[i], s) && i.target == s.target && (s.review.Some? ==> s.review.value == i)
    ensures j in Seen(ps, s) && j != i ==> s.review.None? && Exactly(ps[i], s) && !Exactly(ps[j], s)
    ensures j in ps && j != i ==> j in Observe(ps, s).projections && Observe(ps, s).projections[j] == ps[j]
  {
    hide Sees, Exactly;
    var chosen := Narrowed(ps, s);
    assert chosen == {i};
    assert i in chosen;
    var seen := Seen(ps, s);
    assert i in seen;
    if j in seen && j != i {
      assert s.review.None?;
      TwoAreMoreThanOne(seen, i, j);
      assert j !in chosen;
    }
  }

  lemma TwoAreMoreThanOne(s: set<Identity>, i: Identity, j: Identity)
    requires i in s && j in s && i != j
    ensures |s| > 1
  {
    SubsetSize({i, j}, s);
  }
}

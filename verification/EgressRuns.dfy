/** Whole runs of the telemetry store under a clock that does not go back. */
module EgressRuns {
  import opened Ordering
  import opened EgressTelemetry
  import opened EgressCompleteness

  /** `Abort` is an ingest that throws: its transaction rolls back and the caches are dropped. */
  datatype Event =
    | Submit(value: Option<Submission>, now: int)
    | Summarize(now: int)
    | Query(window: int, now: int)
    | Abort(now: int)
    | Restart(now: int)

  predicate Accepts(s: State, ev: Event) {
    ev.Submit? && ev.value.Some? && Acceptable(ev.value.value, ev.now) && ev.value.value.receipt !in s.tables.receipts
  }

  ghost predicate Enabled(ev: Event) { ev.Query? ==> Supported(ev.window) }

  function Step(s: State, caps: Caps, ev: Event): State
    requires Consistent(s) && caps.rollup >= 1 && caps.rate >= 1 && Enabled(ev)
  {
    match ev
    case Submit(value, now) => Ingest(s, caps, value, now).state
    case Summarize(now) => PublicSummary(s, now).state
    case Query(window, now) => PublicObservability(s, window, now).state
    case Abort(_) => State(s.tables, UNUSED)
    case Restart(_) => State(s.tables, UNUSED)
  }

  ghost function Grown(s: State, ev: Event, accepted: seq<Submission>): seq<Submission> {
    if Accepts(s, ev) then accepted + [ev.value.value] else accepted
  }

  // ----- one step -----

  lemma CappedIsSound(s: State, accepted: seq<Submission>, caps: Caps, now: int)
    requires Sound(s, accepted, now) && s.memory.counts.Some? && s.memory.summary.None? && caps.rollup >= 1 && caps.rate >= 1
    ensures var c := Capped(s, caps, now);
            Sound(c, accepted, now) && c.memory.summary.None?
            && |c.tables.rollups| <= caps.rollup && |c.tables.rates| <= caps.rate
  {
    hide Consistent, RollupsSound, RatesSound, ReceiptsSound, EvictRollups, EvictRates, RowidsDistinct;
    ConsistentRowids(s);
    EvictRollupsIsSound(s, accepted, caps.rollup, now);
    EvictRatesIsSound(EvictRollups(s, caps.rollup, now), accepted, caps.rate, now);
  }

  lemma RecordedHasNoSummary(s: State, sub: Submission, now: int)
    requires Consistent(s) && ReceiptsOfRates(s) && sub.receipt !in s.tables.receipts
    ensures Recorded(s, sub, now).memory.summary.None?
  {
    hide Consistent, AddMetrics, AddRates, Maintain, EnsureCounts;
    RatesAfterMaintenance(s, sub.receipt, now);
    RecordedShape(s, sub, now);
  }

  ghost predicate ReceiptsOfRates(s: State) {
    forall e | e in s.tables.rates :: e.receipt in s.tables.receipts
  }

  lemma RatesAfterMaintenance(s: State, receipt: int, now: int)
    requires ReceiptsOfRates(s) && receipt !in s.tables.receipts
    ensures forall e | e in Opened(s, now).tables.rates :: e.receipt != receipt
    ensures Opened(s, now).memory.summary.None?
  {
  }

  lemma NotedIsSound(s: State, u: State, accepted: seq<Submission>, now: int)
    requires Sound(s, accepted, now) && SameEvidence(s, u) && u.memory == s.memory
    ensures Sound(u, accepted, now)
  {
    hide Consistent, RollupsSound, RatesSound, ReceiptsSound;
    SameTablesAreSound(s, u, accepted, now);
  }

  lemma IngestIsSound(s: State, caps: Caps, value: Option<Submission>, now: int, accepted: seq<Submission>)
    requires Sound(s, accepted, now) && caps.rollup >= 1 && caps.rate >= 1
    ensures var ev := Submit(value, now);
            var o := Ingest(s, caps, value, now);
            && Sound(o.state, Grown(s, ev, accepted), now)
            && (o.reply.Accepted? <==> Accepts(s, ev))
            && (o.reply.Accepted? ==> |o.state.tables.rollups| <= caps.rollup && |o.state.tables.rates| <= caps.rate)
  {
    hide Sound, Consistent, Recorded, Capped, Acceptable, Accounted, ReceiptsOfRates;
    SoundIsConsistent(s, accepted, now);
    var o := Ingest(s, caps, value, now);
    if Accepts(s, Submit(value, now)) {
      var sub := value.value;
      var r := Recorded(s, sub, now);
      RecordedIsSound(s, accepted, sub, now);
      RecordedHasNoSummary(s, sub, now);
      SoundIsConsistent(r, accepted + [sub], now);
      CappedIsSound(r, accepted + [sub], caps, now);
      var c := Capped(r, caps, now);
      assert SameEvidence(c, o.state) by { AccountedIsEvidence(c, sub, now); }
      NotedIsSound(c, o.state, accepted + [sub], now);
    } else {
      assert SameEvidence(s, o.state);
      NotedIsSound(s, o.state, accepted, now);
    }
  }

  lemma AccountedIsEvidence(c: State, sub: Submission, now: int)
    ensures SameEvidence(c, c.(tables := c.tables.(diagnostics := Accounted(c.tables.diagnostics, sub, now))))
  {
    hide CountMetrics, IncompleteMetrics, IncompleteRates;
  }

  lemma SoundIsConsistent(s: State, accepted: seq<Submission>, clock: int)
    requires Sound(s, accepted, clock)
    ensures Consistent(s) && ReceiptsOfRates(s)
  {
  }

  lemma SummaryIsSound(s: State, now: int, accepted: seq<Submission>)
    requires Sound(s, accepted, now)
    ensures Sound(PublicSummary(s, now).state, accepted, now)
    ensures PublicSummary(s, now).report.rows == Window(Maintain(s, now).tables.rollups, FiveMinute, PublicSummary(s, now).report.start)
  {
    hide Consistent, RollupsSound, RatesSound, ReceiptsSound, Window, Maintain, RollupWindowComplete, RateWindowComplete;
    MaintainIsSound(s, accepted, now);
    SameTablesAreSound(Maintain(s, now), PublicSummary(s, now).state, accepted, now);
  }

  lemma ForgettingIsSound(s: State, accepted: seq<Submission>, now: int)
    requires Sound(s, accepted, now)
    ensures Sound(State(s.tables, UNUSED), accepted, now)
  {
    assert Consistent(State(s.tables, UNUSED));
    hide RollupsSound, RatesSound, ReceiptsSound, Consistent;
    SameTablesAreSound(s, State(s.tables, UNUSED), accepted, now);
  }

  lemma StepIsSound(s: State, caps: Caps, ev: Event, accepted: seq<Submission>)
    requires Sound(s, accepted, ev.now) && caps.rollup >= 1 && caps.rate >= 1 && Enabled(ev)
    ensures Consistent(s) && Sound(Step(s, caps, ev), Grown(s, ev, accepted), ev.now)
  {
    hide Sound, Consistent, Ingest, PublicSummary, PublicObservability, Maintain;
    SoundIsConsistent(s, accepted, ev.now);
    match ev
    case Submit(value, now) => IngestIsSound(s, caps, value, now, accepted);
    case Summarize(now) => SummaryIsSound(s, now, accepted);
    case Query(window, now) =>
      MaintainIsSound(s, accepted, now);
      QueryState(s, window, now);
    case Abort(now) => ForgettingIsSound(s, accepted, now);
    case Restart(now) => ForgettingIsSound(s, accepted, now);
  }

  lemma QueryState(s: State, window: int, now: int)
    requires Supported(window)
    ensures PublicObservability(s, window, now).state == Maintain(s, now)
  {
  }

  // ----- runs -----

  ghost predicate Run(h: seq<State>, evs: seq<Event>, caps: Caps) {
    && |h| == |evs| + 1 && h[0] == START && caps.rollup >= 1 && caps.rate >= 1
    && (forall i | 0 <= i < |evs| :: Enabled(evs[i]) && (Consistent(h[i]) ==> h[i + 1] == Step(h[i], caps, evs[i])))
    && (forall i | 1 <= i < |evs| :: evs[i - 1].now <= evs[i].now)
  }

  /** The submissions the first `n` steps accepted, in order. */
  ghost function AcceptedBy(h: seq<State>, evs: seq<Event>, n: nat): seq<Submission>
    requires n <= |evs| < |h|
  {
    if n == 0 then [] else Grown(h[n - 1], evs[n - 1], AcceptedBy(h, evs, n - 1))
  }

  lemma {:induction false} RunIsSound(h: seq<State>, evs: seq<Event>, caps: Caps, n: nat, clock: int)
    requires Run(h, evs, caps) && n <= |evs| && (n > 0 ==> evs[n - 1].now <= clock)
    ensures Sound(h[n], AcceptedBy(h, evs, n), clock)
    decreases n
  {
    hide Sound, Consistent, Step, Grown;
    if n == 0 {
      StartIsSound(clock);
    } else {
      var ev := evs[n - 1];
      RunIsSound(h, evs, caps, n - 1, ev.now);
      StepIsSound(h[n - 1], caps, ev, AcceptedBy(h, evs, n - 1));
      LaterIsSound(h[n], AcceptedBy(h, evs, n), ev.now, clock);
    }
  }

  lemma {:induction false} AcceptedIsKept(h: seq<State>, evs: seq<Event>, i: nat, n: nat)
    requires i < n <= |evs| < |h| && Accepts(h[i], evs[i])
    ensures evs[i].value.value in AcceptedBy(h, evs, n)
    decreases n
  {
    hide Accepts;
    if i < n - 1 {
      AcceptedIsKept(h, evs, i, n - 1);
    } else {
      assert Accepts(h[i], evs[i]);
    }
  }

  /** Receipts are forgotten after a week, yet an identical submission is never applied twice. */
  lemma AppliedAtMostOnce(h: seq<State>, evs: seq<Event>, caps: Caps, i: nat, j: nat)
    requires Run(h, evs, caps) && i < j < |evs|
    requires Accepts(h[i], evs[i]) && evs[j].Submit? && evs[j].value == evs[i].value
    ensures !Accepts(h[j], evs[j])
  {
    hide Run, Consistent, RollupsSound, RatesSound, Step;
    assert Run(h, evs, caps) && j < |evs| < |h| by { RunLength(h, evs, caps); }
    RunIsOrdered(h, evs, caps, j);
    RunIsSound(h, evs, caps, j, evs[j].now);
    AcceptedIsKept(h, evs, i, j);
    var sub := evs[i].value.value;
    assert Remembered(h[j], sub, evs[j].now);
    if sub.receipt !in h[j].tables.receipts {
      TooOldToAccept(sub, evs[j].now);
    }
  }

  lemma TooOldToAccept(sub: Submission, now: int)
    requires Before(sub, now - RECEIPT_RETENTION_MS + AHEAD_MS)
    ensures !Acceptable(sub, now)
  {
    if sub.metrics != [] {
      assert sub.metrics[0] in sub.metrics;
    } else if sub.rates != [] {
      assert sub.rates[0] in sub.rates;
    }
  }

  lemma RunLength(h: seq<State>, evs: seq<Event>, caps: Caps)
    requires Run(h, evs, caps)
    ensures |h| == |evs| + 1
  {
  }

  lemma RunIsOrdered(h: seq<State>, evs: seq<Event>, caps: Caps, j: nat)
    requires Run(h, evs, caps) && j < |evs|
    ensures j > 0 ==> evs[j - 1].now <= evs[j].now
  {
  }

  // ----- what is published -----

  lemma WindowsAreRetained(kind: Kind, window: int, now: int)
    requires (kind.FiveMinute? && window <= 21600000) || (kind.Hour? && window <= 604800000)
    ensures Aligned(kind, now - window) >= now - Retention(kind)
  {
    assert Aligned(kind, now - window) > now - window - Width(kind);
  }

  /** The window's rows are every key that was ever given anything, with all it was given. */
  ghost predicate HoldsEverything(rows: map<RollupKey, int>, accepted: seq<Submission>, kind: Kind, start: int) {
    forall k: RollupKey | k.kind == kind && start <= k.start ::
      (k in rows <==> Total(accepted, k) > 0) && (k in rows ==> rows[k] == Total(accepted, k))
  }

  lemma CompleteMeansEverything(s: State, accepted: seq<Submission>, now: int, kind: Kind, start: int)
    requires Sound(s, accepted, now) && start >= now - Retention(kind)
    requires Mark(s.tables.diagnostics, kind).Some? ==> Mark(s.tables.diagnostics, kind).value >= 0
    ensures RollupWindowComplete(s.tables.diagnostics, kind, start)
       <==> HoldsEverything(Window(s.tables.rollups, kind, start), accepted, kind, start)
  {
    hide Total, Consistent, RatesSound, ReceiptsSound;
    var d := s.tables.diagnostics;
    var rows := Window(s.tables.rollups, kind, start);
    CountsArePositive(s);
    assert MarkSound(s, accepted, kind);
    forall k: RollupKey | k.kind == kind && start <= k.start
      ensures (k in rows <==> Count(s.tables.rollups, k) > 0) && (k in rows ==> rows[k] == Count(s.tables.rollups, k)) {}
    if RollupWindowComplete(d, kind, start) {
      forall k: RollupKey | k.kind == kind && start <= k.start ensures Count(s.tables.rollups, k) == Total(accepted, k) {
        assert !Excused(d, now, k);
      }
    } else {
      var k: RollupKey :| k.kind == kind && k.start == Mark(d, kind).value && Short(s, accepted, k);
      assert start <= k.start;
      assert Count(s.tables.rollups, k) < Total(accepted, k);
    }
  }

  /** Even where a watermark lies before the epoch, a window called complete is. */
  lemma CompleteIsSound(s: State, accepted: seq<Submission>, now: int, kind: Kind, start: int)
    requires Sound(s, accepted, now) && start >= now - Retention(kind)
    requires RollupWindowComplete(s.tables.diagnostics, kind, start)
    ensures HoldsEverything(Window(s.tables.rollups, kind, start), accepted, kind, start)
  {
    hide Total, Consistent, RatesSound, ReceiptsSound;
    CountsArePositive(s);
    assert MarkSound(s, accepted, kind);
    forall k: RollupKey | k.kind == kind && start <= k.start ensures Count(s.tables.rollups, k) == Total(accepted, k) {
      assert !Excused(s.tables.diagnostics, now, k);
    }
  }

  ghost predicate HoldsRates(rates: map<EventId, Observation>, accepted: seq<Submission>, start: int) {
    forall e: EventId, o: Observation | start <= o.observedAt :: Seen(accepted, e, o) <==> e in rates && rates[e] == o
  }

  lemma RateWindowIsSound(s: State, accepted: seq<Submission>, now: int, start: int)
    requires Sound(s, accepted, now) && start >= now - RATE_RETENTION_MS && RateWindowComplete(s.tables.diagnostics, start)
    ensures HoldsRates(RatesSince(s.tables.rates, start), accepted, start)
  {
    hide Consistent, RollupsSound, ReceiptsSound, Seen;
  }

  /** A published report, in any state of any run: where it says its window is complete, its rows
      are exactly all that was ever accepted for the window. */
  ghost predicate ReportIsSound(r: Report, accepted: seq<Submission>) {
    && (r.rollupsComplete ==> HoldsEverything(r.rows, accepted, r.kind, r.start))
  }

  /** The same holds of a summary served from the cache. It publishes no observations, but where it
      says they are complete, the table holds exactly those ever accepted for its window. */
  lemma SummariesAreSound(h: seq<State>, evs: seq<Event>, caps: Caps, n: nat, now: int)
    requires Run(h, evs, caps) && n <= |evs| && (n > 0 ==> evs[n - 1].now <= now)
    ensures var r := PublicSummary(h[n], now).report;
            && ReportIsSound(r, AcceptedBy(h, evs, n))
            && (r.ratesComplete ==> HoldsRates(RatesSince(h[n].tables.rates, r.rateStart), AcceptedBy(h, evs, n), r.rateStart))
  {
    hide Run, Sound, Consistent, Maintain, Window, RollupWindowComplete, RateWindowComplete, HoldsEverything, HoldsRates,
      AcceptedBy, RatesSince;
    RunLength(h, evs, caps);
    var accepted := AcceptedBy(h, evs, n);
    RunIsSound(h, evs, caps, n, now);
    SummaryIsSound(h[n], now, accepted);
    MaintainIsSound(h[n], accepted, now);
    WindowsAreRetained(FiveMinute, SUMMARY_WINDOW_MS, now);
    var start := Aligned(FiveMinute, now - SUMMARY_WINDOW_MS);
    if RollupWindowComplete(Maintain(h[n], now).tables.diagnostics, FiveMinute, start) {
      CompleteIsSound(Maintain(h[n], now), accepted, now, FiveMinute, start);
    }
    var rateStart := now - SUMMARY_WINDOW_MS;
    if RateWindowComplete(Maintain(h[n], now).tables.diagnostics, rateStart) {
      MaintenanceKeepsRecentRates(h[n], now, rateStart);
      RateWindowIsSound(Maintain(h[n], now), accepted, now, rateStart);
    }
  }

  lemma MaintenanceKeepsRecentRates(s: State, now: int, start: int)
    requires start >= now - RATE_RETENTION_MS
    ensures RatesSince(Maintain(s, now).tables.rates, start) == RatesSince(s.tables.rates, start)
  {
  }

  lemma QueriesAreSound(h: seq<State>, evs: seq<Event>, caps: Caps, n: nat, window: int, now: int)
    requires Run(h, evs, caps) && n <= |evs| && (n > 0 ==> evs[n - 1].now <= now) && Supported(window)
    ensures var r := PublicObservability(h[n], window, now).report;
            && ReportIsSound(r, AcceptedBy(h, evs, n))
            && (r.ratesComplete ==> HoldsRates(r.rates, AcceptedBy(h, evs, n), r.rateStart))
  {
    hide Run, Sound, Consistent, Maintain, Window, RollupWindowComplete, RateWindowComplete, HoldsEverything, HoldsRates,
      AcceptedBy, RatesSince;
    RunLength(h, evs, caps);
    var accepted := AcceptedBy(h, evs, n);
    var m := Maintain(h[n], now);
    var kind := WindowKind(window);
    var start := Aligned(kind, now - window);
    RunIsSound(h, evs, caps, n, now);
    MaintainIsSound(h[n], accepted, now);
    WindowsAreRetained(kind, window, now);
    hide Aligned;
    if RollupWindowComplete(m.tables.diagnostics, kind, start) {
      CompleteIsSound(m, accepted, now, kind, start);
    }
    if window <= RATE_RETENTION_MS && RateWindowComplete(m.tables.diagnostics, now - window) {
      RateWindowIsSound(m, accepted, now, now - window);
    }
  }

  // ----- exactly when a report calls itself complete -----

  /** No accepted time stamp lies before the epoch. */
  ghost predicate AfterEpoch(accepted: seq<Submission>) {
    forall sub | sub in accepted :: (forall m | m in sub.metrics :: 0 <= m.start) && (forall o | o in sub.rates :: 0 <= o.observedAt)
  }

  lemma {:induction false} GivenAfterEpoch(metrics: seq<Metric>, k: RollupKey)
    requires forall m | m in metrics :: 0 <= m.start
    ensures GivenAll(metrics, k) > 0 ==> 0 <= k.start
  {
    if metrics != [] {
      assert metrics[0] in metrics;
      GivenAfterEpoch(metrics[1..], k);
    }
  }

  lemma {:induction false} TotalAfterEpoch(accepted: seq<Submission>, k: RollupKey)
    requires AfterEpoch(accepted)
    ensures Total(accepted, k) > 0 ==> 0 <= k.start
  {
    if accepted != [] {
      var n := |accepted| - 1;
      assert accepted[n] in accepted && forall sub | sub in accepted[..n] :: sub in accepted;
      TotalAfterEpoch(accepted[..n], k);
      GivenAfterEpoch(accepted[n].metrics, k);
    }
  }

  lemma MarksAfterEpoch(s: State, accepted: seq<Submission>, now: int, kind: Kind)
    requires Sound(s, accepted, now) && AfterEpoch(accepted)
    ensures Mark(s.tables.diagnostics, kind).Some? ==> 0 <= Mark(s.tables.diagnostics, kind).value
  {
    hide Total, Consistent, RatesSound, ReceiptsSound, AfterEpoch;
    CountsArePositive(s);
    assert MarkSound(s, accepted, kind);
    if Mark(s.tables.diagnostics, kind).Some? {
      var k: RollupKey :| k.kind == kind && k.start == Mark(s.tables.diagnostics, kind).value && Short(s, accepted, k);
      TotalAfterEpoch(accepted, k);
    }
  }

  lemma RateWindowIsExact(s: State, accepted: seq<Submission>, now: int, start: int)
    requires Sound(s, accepted, now) && AfterEpoch(accepted) && start >= now - RATE_RETENTION_MS
    ensures RateWindowComplete(s.tables.diagnostics, start) <==> HoldsRates(RatesSince(s.tables.rates, start), accepted, start)
  {
    hide Consistent, RollupsSound, ReceiptsSound, Seen, HoldsRates;
    if RateWindowComplete(s.tables.diagnostics, start) {
      RateWindowIsSound(s, accepted, now, start);
    } else {
      var e: EventId, o: Observation :| o.observedAt == s.tables.diagnostics.rateMark.value && Lost(s, accepted, e, o);
      SeenAfterEpoch(accepted, e, o);
      LostIsMissing(s, accepted, e, o, start);
    }
  }

  lemma SeenAfterEpoch(accepted: seq<Submission>, e: EventId, o: Observation)
    requires AfterEpoch(accepted) && Seen(accepted, e, o)
    ensures 0 <= o.observedAt
  {
    var x :| x in accepted && Carries(x, e, o);
    assert o in x.rates;
  }

  lemma LostIsMissing(s: State, accepted: seq<Submission>, e: EventId, o: Observation, start: int)
    requires Lost(s, accepted, e, o) && start <= o.observedAt
    ensures !HoldsRates(RatesSince(s.tables.rates, start), accepted, start)
  {
    hide Seen;
  }

  /** Whatever it calls itself, a report shows no bucket of another kind or from before its window, and
      of none more than was accepted. */
  ghost predicate RowsAreAccepted(r: Report, accepted: seq<Submission>) {
    forall k | k in r.rows :: k.kind == r.kind && r.start <= k.start && 0 < r.rows[k] <= Total(accepted, k)
  }

  lemma WindowRowsAreAccepted(s: State, accepted: seq<Submission>, now: int, r: Report)
    requires Sound(s, accepted, now) && r.rows == Window(s.tables.rollups, r.kind, r.start)
    ensures RowsAreAccepted(r, accepted)
  {
    hide Total, Consistent, RatesSound, ReceiptsSound;
    CountsArePositive(s);
    forall k | k in r.rows ensures r.rows[k] == Count(s.tables.rollups, k) {}
  }

  /** A summary covers the last six hours in buckets of five minutes, the first one begun at most five
      minutes earlier, and calls its sums and the observations complete exactly when they are. */
  lemma SummariesAreExact(h: seq<State>, evs: seq<Event>, caps: Caps, n: nat, now: int)
    requires Run(h, evs, caps) && n <= |evs| && (n > 0 ==> evs[n - 1].now <= now)
    requires |h| == |evs| + 1 && AfterEpoch(AcceptedBy(h, evs, n))
    ensures var r := PublicSummary(h[n], now).report;
            var accepted := AcceptedBy(h, evs, n);
            && r.kind.FiveMinute? && r.start % 300000 == 0 && now - 21600000 - 300000 < r.start <= now - 21600000
            && r.rateStart == now - 21600000
            && RowsAreAccepted(r, accepted)
            && (r.rollupsComplete <==> HoldsEverything(r.rows, accepted, r.kind, r.start))
            && (r.ratesComplete <==> HoldsRates(RatesSince(h[n].tables.rates, r.rateStart), accepted, r.rateStart))
  {
    hide Run, Sound, Consistent, Maintain, Window, RollupWindowComplete, RateWindowComplete, HoldsEverything, HoldsRates,
      AcceptedBy, RatesSince, AfterEpoch, RowsAreAccepted;
    var accepted := AcceptedBy(h, evs, n);
    var m := Maintain(h[n], now);
    RunIsSound(h, evs, caps, n, now);
    SummaryIsSound(h[n], now, accepted);
    MaintainIsSound(h[n], accepted, now);
    WindowsAreRetained(FiveMinute, SUMMARY_WINDOW_MS, now);
    MarksAfterEpoch(m, accepted, now, FiveMinute);
    var r := PublicSummary(h[n], now).report;
    CompleteMeansEverything(m, accepted, now, FiveMinute, r.start);
    WindowRowsAreAccepted(m, accepted, now, r);
    MaintenanceKeepsRecentRates(h[n], now, now - SUMMARY_WINDOW_MS);
    RateWindowIsExact(m, accepted, now, now - SUMMARY_WINDOW_MS);
  }

  /** The same of a query: windows to six hours in buckets of five minutes, longer ones by the hour. */
  lemma QueriesAreExact(h: seq<State>, evs: seq<Event>, caps: Caps, n: nat, window: int, now: int)
    requires Run(h, evs, caps) && n <= |evs| && (n > 0 ==> evs[n - 1].now <= now) && Supported(window)
    requires |h| == |evs| + 1 && AfterEpoch(AcceptedBy(h, evs, n))
    ensures var r := PublicObservability(h[n], window, now).report;
            var accepted := AcceptedBy(h, evs, n);
            var width := if window <= 21600000 then 300000 else 3600000;
            && (r.kind.FiveMinute? <==> window <= 21600000)
            && r.start % width == 0 && now - window - width < r.start <= now - window && r.rateStart == now - window
            && RowsAreAccepted(r, accepted)
            && (r.rollupsComplete <==> HoldsEverything(r.rows, accepted, r.kind, r.start))
            && (r.ratesComplete <==> window <= 86400000 && HoldsRates(r.rates, accepted, r.rateStart))
  {
    hide Run, Sound, Consistent, Maintain, Window, RollupWindowComplete, RateWindowComplete, HoldsEverything, HoldsRates,
      AcceptedBy, RatesSince, AfterEpoch, RowsAreAccepted;
    var accepted := AcceptedBy(h, evs, n);
    var m := Maintain(h[n], now);
    var kind := WindowKind(window);
    RunIsSound(h, evs, caps, n, now);
    MaintainIsSound(h[n], accepted, now);
    WindowsAreRetained(kind, window, now);
    MarksAfterEpoch(m, accepted, now, kind);
    var r := PublicObservability(h[n], window, now).report;
    CompleteMeansEverything(m, accepted, now, kind, r.start);
    WindowRowsAreAccepted(m, accepted, now, r);
    if window <= RATE_RETENTION_MS { RateWindowIsExact(m, accepted, now, now - window); }
  }

  lemma {:induction false} TotalNeverFalls(h: seq<State>, evs: seq<Event>, caps: Caps, i: nat, j: nat, k: RollupKey)
    requires Run(h, evs, caps) && i <= j <= |evs|
    ensures |h| == |evs| + 1 && Total(AcceptedBy(h, evs, i), k) <= Total(AcceptedBy(h, evs, j), k)
    decreases j
  {
    hide Run, Total, Step, Consistent;
    RunLength(h, evs, caps);
    if i < j {
      TotalNeverFalls(h, evs, caps, i, j - 1, k);
      if Accepts(h[j - 1], evs[j - 1]) {
        var sub := evs[j - 1].value.value;
        TotalAppends(AcceptedBy(h, evs, j - 1), sub, k);
        GivenIsNatural(sub.metrics, k);
      }
    }
  }

  /** Of two reports that say they are complete, the later one shows at least as much of any bucket
      both cover, whatever was pruned, evicted or restarted in between. */
  lemma CompleteCountsNeverFall(h: seq<State>, evs: seq<Event>, caps: Caps, i: nat, j: nat, window: int, from: int, later: int,
                                until: int, k: RollupKey)
    requires Run(h, evs, caps) && i <= j <= |evs| && Supported(window) && Supported(later)
    requires (i > 0 ==> evs[i - 1].now <= from) && (j > 0 ==> evs[j - 1].now <= until)
    ensures var a := PublicObservability(h[i], window, from).report;
            var b := PublicObservability(h[j], later, until).report;
            a.rollupsComplete && b.rollupsComplete && k.kind == b.kind && k.start >= b.start && k in a.rows ==>
              k in b.rows && a.rows[k] <= b.rows[k]
  {
    hide Run, PublicObservability, Total, AcceptedBy, HoldsRates;
    RunLength(h, evs, caps);
    QueriesAreSound(h, evs, caps, i, window, from);
    QueriesAreSound(h, evs, caps, j, later, until);
    TotalNeverFalls(h, evs, caps, i, j, k);
    QueryRows(h[i], window, from);
  }

  lemma QueryRows(s: State, window: int, now: int)
    requires Supported(window)
    ensures var r := PublicObservability(s, window, now).report;
            forall k | k in r.rows :: k.kind == r.kind && r.start <= k.start
  {
  }

  /** The caches are exact after every step, and every accepted ingest leaves both tables capped. */
  lemma CapsHold(h: seq<State>, evs: seq<Event>, caps: Caps, n: nat)
    requires Run(h, evs, caps) && n < |evs|
    ensures CountsExact(h[n + 1]) && SummaryFresh(h[n + 1])
    ensures Accepts(h[n], evs[n]) ==> |h[n + 1].tables.rollups| <= caps.rollup && |h[n + 1].tables.rates| <= caps.rate
  {
    hide Run, Consistent, RollupsSound, RatesSound, ReceiptsSound, Ingest, Step, SummaryFresh, CountsExact;
    RunLength(h, evs, caps);
    RunIsSound(h, evs, caps, n + 1, evs[n].now);
    RunIsOrdered(h, evs, caps, n);
    RunIsSound(h, evs, caps, n, evs[n].now);
    SoundIsExact(h[n + 1], AcceptedBy(h, evs, n + 1), evs[n].now);
    if Accepts(h[n], evs[n]) {
      SoundIsConsistent(h[n], AcceptedBy(h, evs, n), evs[n].now);
      RunStep(h, evs, caps, n);
      IngestIsSound(h[n], caps, evs[n].value, evs[n].now, AcceptedBy(h, evs, n));
      SubmitStep(h[n], caps, evs[n]);
    }
  }

  lemma SubmitStep(s: State, caps: Caps, ev: Event)
    requires Consistent(s) && caps.rollup >= 1 && caps.rate >= 1 && ev.Submit?
    ensures Step(s, caps, ev) == Ingest(s, caps, ev.value, ev.now).state
  {
  }

  lemma RunStep(h: seq<State>, evs: seq<Event>, caps: Caps, n: nat)
    requires Run(h, evs, caps) && n < |evs| && Consistent(h[n])
    ensures caps.rollup >= 1 && caps.rate >= 1 && Enabled(evs[n]) && h[n + 1] == Step(h[n], caps, evs[n])
  {
  }

  lemma SoundIsExact(s: State, accepted: seq<Submission>, clock: int)
    requires Sound(s, accepted, clock)
    ensures CountsExact(s) && SummaryFresh(s)
  {
  }
}

/** What the telemetry store accepts, keeps, evicts and counts, told in its published numbers. */
module EgressAccounting {
  import opened Ordering
  import opened EgressTelemetry
  import opened EgressCompleteness
  import opened EgressRuns

  // ----- what is accepted -----

  /** At most 128 metrics and 16 observations, not none of both; each from the last day or the next five
      minutes; metrics at the start of five minutes and counting up to a million. */
  ghost predicate WellFormed(sub: Submission, now: int) {
    && |sub.metrics| <= 128 && |sub.rates| <= 16 && |sub.metrics| + |sub.rates| > 0
    && (forall m | m in sub.metrics ::
          m.start % 300000 == 0 && now - 86400000 <= m.start <= now + 300000 && 1 <= m.count <= 1000000)
    && (forall o | o in sub.rates :: now - 86400000 <= o.observedAt <= now + 300000)
  }

  /** A submission is rejected unless it is well formed, and deduplicated while its receipt is known. */
  lemma AnsweredExactly(s: State, caps: Caps, value: Option<Submission>, now: int)
    requires Consistent(s) && caps.rollup >= 1 && caps.rate >= 1
    ensures Ingest(s, caps, value, now).reply ==
            if value.None? || !WellFormed(value.value, now) then Rejected
            else if value.value.receipt in s.tables.receipts then Deduped else Accepted
  {
    hide Consistent, Recorded, Capped, Accounted;
  }

  // ----- what is kept -----

  /** Maintenance runs once in five minutes at most. It keeps five-minute rows for a week, hour rows for
      thirty days, observations for a day and receipts for a week, each as it is, and drops the rest. */
  lemma MaintenanceIsExact(s: State, now: int)
    ensures var u := Maintain(s, now);
            var due := s.memory.maintainedAt.None? || now - s.memory.maintainedAt.value >= 300000;
            && (!due ==> u == s)
            && (due ==>
                  && u.memory.maintainedAt == Some(now) && u.memory.summary.None? && u.tables.diagnostics == s.tables.diagnostics
                  && (forall k :: k in u.tables.rollups <==>
                        k in s.tables.rollups && k.start >= now - if k.kind.FiveMinute? then 604800000 else 2592000000)
                  && (forall e :: e in u.tables.rates <==> e in s.tables.rates && s.tables.rates[e].observedAt >= now - 86400000)
                  && (forall r :: r in u.tables.receipts <==> r in s.tables.receipts && s.tables.receipts[r] >= now - 604800000)
                  && (forall k | k in u.tables.rollups :: u.tables.rollups[k] == s.tables.rollups[k])
                  && (forall e | e in u.tables.rates :: u.tables.rates[e] == s.tables.rates[e])
                  && (forall r | r in u.tables.receipts :: u.tables.receipts[r] == s.tables.receipts[r]))
  {
  }

  // ----- what is evicted -----

  /** Over the cap the rows that begin first go, older rows first among equals, down to the cap. */
  lemma EvictedRollupsAreOldest(s: State, cap: int, now: int, gone: RollupKey, kept: RollupKey)
    requires Consistent(s) && s.memory.counts.Some? && cap >= 1
    ensures RowidsDistinct(s.tables.rollups)
    ensures var u := EvictRollups(s, cap, now).tables.rollups;
            && |u| == Min(cap, |s.tables.rollups|)
            && (kept in u ==> kept in s.tables.rollups && u[kept] == s.tables.rollups[kept])
            && (gone in s.tables.rollups && gone !in u && kept in u ==>
                  || gone.start < kept.start
                  || (gone.start == kept.start && s.tables.rollups[gone].rowid < s.tables.rollups[kept].rowid))
  {
    hide Consistent, NoteRollups, Oldest, RowidsDistinct, Sorted, Limit, Distinct;
    ConsistentRowids(s);
    ExactCounts(s);
    var overflow := s.memory.counts.value.rollup - cap;
    if overflow > 0 {
      EvictedRollups(s, cap, now);
      OldestAreTheOldest(s.tables.rollups, overflow);
      Without(s.tables.rollups, Oldest(s.tables.rollups, overflow));
      if gone in s.tables.rollups && gone in Oldest(s.tables.rollups, overflow) && kept in EvictRollups(s, cap, now).tables.rollups {
        LimitKeepsTheLeast(Ages(s.tables.rollups), overflow, gone, kept);
      }
    }
  }

  /** Of the observations the earliest go, down to the cap. */
  lemma EvictedRatesAreOldest(s: State, cap: int, now: int, gone: EventId, kept: EventId)
    requires Consistent(s) && s.memory.counts.Some? && cap >= 1
    ensures Indexed(s.tables.rates)
    ensures var u := EvictRates(s, cap, now).tables.rates;
            && |u| == Min(cap, |s.tables.rates|)
            && (kept in u ==> kept in s.tables.rates && u[kept] == s.tables.rates[kept])
            && (gone in s.tables.rates && gone !in u && kept in u ==>
                  s.tables.rates[gone].observedAt <= s.tables.rates[kept].observedAt)
  {
    hide Consistent, NoteRates, OldestRates, Indexed, Sorted, Limit, LatestObserved;
    ConsistentRowids(s);
    ExactCounts(s);
    var overflow := s.memory.counts.value.rate - cap;
    if overflow > 0 {
      EvictedRates(s, cap, now);
      OldestRatesAreDistinct(s.tables.rates, overflow);
      Without(s.tables.rates, OldestRates(s.tables.rates, overflow));
      if gone in s.tables.rates && gone in OldestRates(s.tables.rates, overflow) && kept in EvictRates(s, cap, now).tables.rates {
        LimitKeepsTheLeast(RateAges(s.tables.rates), overflow, gone, kept);
      }
    }
  }

  /** Evictions are booked as they happen: every row that went, under its kind, with the time. */
  lemma RollupEvictionsAreBooked(s: State, cap: int, now: int)
    requires Consistent(s) && s.memory.counts.Some? && cap >= 1
    ensures RowidsDistinct(s.tables.rollups)
    ensures var u, d := EvictRollups(s, cap, now), s.tables.diagnostics;
            var e := u.tables.diagnostics;
            var gone := |s.tables.rollups| - |u.tables.rollups|;
            && e.evictedRollups - d.evictedRollups == gone
            && (e.evictedFive - d.evictedFive) + (e.evictedHour - d.evictedHour) == gone
            && e.evictedRates == d.evictedRates && e.rollupEvictedAt == (if gone > 0 then Some(now) else d.rollupEvictedAt)
  {
    hide Consistent, Oldest, LatestStart, CountKind, RowidsDistinct, NoteRollups;
    ConsistentRowids(s);
    ExactCounts(s);
    var overflow := s.memory.counts.value.rollup - cap;
    if overflow > 0 {
      hide EvictRollups;
      EvictedRollups(s, cap, now);
      OldestAreTheOldest(s.tables.rollups, overflow);
      Without(s.tables.rollups, Oldest(s.tables.rollups, overflow));
      KindsAddUp(Oldest(s.tables.rollups, overflow));
      NotedCounts(s.tables.diagnostics, Oldest(s.tables.rollups, overflow), overflow, now);
    }
  }

  lemma NotedCounts(d: Diagnostics, gone: seq<RollupKey>, overflow: int, now: int)
    ensures var e := NoteRollups(d, gone, overflow, now);
            && e.evictedRollups == d.evictedRollups + overflow && e.evictedFive == d.evictedFive + CountKind(gone, FiveMinute)
            && e.evictedHour == d.evictedHour + CountKind(gone, Hour) && e.evictedRates == d.evictedRates && e.rollupEvictedAt == Some(now)
  {
    hide LatestStart, CountKind;
  }

  lemma RateEvictionsAreBooked(s: State, cap: int, now: int)
    requires Consistent(s) && s.memory.counts.Some? && cap >= 1
    ensures Indexed(s.tables.rates)
    ensures var u, d := EvictRates(s, cap, now), s.tables.diagnostics;
            var e := u.tables.diagnostics;
            var gone := |s.tables.rates| - |u.tables.rates|;
            && e.evictedRates - d.evictedRates == gone && e.evictedRollups == d.evictedRollups
            && e.rateEvictedAt == (if gone > 0 then Some(now) else d.rateEvictedAt)
  {
    hide Consistent, OldestRates, LatestObserved, Indexed;
    ConsistentRowids(s);
    ExactCounts(s);
    var more := s.memory.counts.value.rate - cap;
    if more > 0 {
      hide EvictRates;
      EvictedRates(s, cap, now);
      OldestRatesAreDistinct(s.tables.rates, more);
      Without(s.tables.rates, OldestRates(s.tables.rates, more));
    }
  }

  lemma {:induction false} KindsAddUp(keys: seq<RollupKey>)
    ensures CountKind(keys, FiveMinute) + CountKind(keys, Hour) == |keys|
  {
    if keys != [] { KindsAddUp(keys[..|keys| - 1]); }
  }

  // ----- what the diagnostics count -----

  function Submissions(evs: seq<Event>): nat {
    if evs == [] then 0 else Submissions(evs[..|evs| - 1]) + if evs[|evs| - 1].Submit? then 1 else 0
  }

  function Units(metrics: seq<Metric>): int { if metrics == [] then 0 else Units(metrics[..|metrics| - 1]) + metrics[|metrics| - 1].count }

  function AllUnits(accepted: seq<Submission>): int {
    if accepted == [] then 0 else AllUnits(accepted[..|accepted| - 1]) + Units(accepted[|accepted| - 1].metrics)
  }

  function AllRates(accepted: seq<Submission>): int {
    if accepted == [] then 0 else AllRates(accepted[..|accepted| - 1]) + |accepted[|accepted| - 1].rates|
  }

  /** The units of incomplete metrics and the incomplete observations. */
  function Lacking(sub: Submission): int { LackingUnits(sub.metrics) + LackingRates(sub.rates) }

  function LackingUnits(metrics: seq<Metric>): int {
    if metrics == [] then 0
    else LackingUnits(metrics[..|metrics| - 1]) + if !metrics[|metrics| - 1].dims.complete then metrics[|metrics| - 1].count else 0
  }

  function LackingRates(rates: seq<Observation>): int {
    if rates == [] then 0 else LackingRates(rates[..|rates| - 1]) + if !rates[|rates| - 1].complete then 1 else 0
  }

  function AllLacking(accepted: seq<Submission>): int {
    if accepted == [] then 0 else AllLacking(accepted[..|accepted| - 1]) + Lacking(accepted[|accepted| - 1])
  }

  lemma {:induction false} UnitsAreCounted(metrics: seq<Metric>)
    ensures CountMetrics(metrics) == Units(metrics) && IncompleteMetrics(metrics) == LackingUnits(metrics)
  {
    if metrics != [] { UnitsAreCounted(metrics[..|metrics| - 1]); }
  }

  lemma {:induction false} RatesAreCounted(rates: seq<Observation>)
    ensures IncompleteRates(rates) == LackingRates(rates)
  {
    if rates != [] { RatesAreCounted(rates[..|rates| - 1]); }
  }

  /** The counters of submissions, told apart from those of evictions. */
  ghost predicate SameCounters(d: Diagnostics, e: Diagnostics) {
    && e.accepted == d.accepted && e.deduped == d.deduped && e.rejected == d.rejected && e.metrics == d.metrics && e.rates == d.rates
    && e.incomplete == d.incomplete
  }

  lemma CappedKeepsCounters(s: State, caps: Caps, now: int)
    requires Consistent(s) && s.memory.counts.Some? && caps.rollup >= 1 && caps.rate >= 1
    ensures SameCounters(s.tables.diagnostics, Capped(s, caps, now).tables.diagnostics)
  {
    hide Consistent, Oldest, OldestRates, LatestStart, CountKind, LatestObserved, RowidsDistinct, Indexed;
    EvictRollupsKeepsConsistent(s, caps.rollup, now);
    ConsistentRowids(s);
    ConsistentRowids(EvictRollups(s, caps.rollup, now));
  }

  lemma RecordedKeepsCounters(s: State, sub: Submission, now: int)
    requires ReceiptsOfRates(s) && sub.receipt !in s.tables.receipts
    ensures Recorded(s, sub, now).tables.diagnostics == s.tables.diagnostics
  {
    hide Recorded, ReceiptsOfRates, RatesAdded, Count, GivenAll, Opened;
    RatesAfterMaintenance(s, sub.receipt, now);
    RecordedShape(s, sub, now);
    OpenedKeepsDiagnostics(s, now);
  }

  lemma OpenedKeepsDiagnostics(s: State, now: int)
    ensures Opened(s, now).tables.diagnostics == s.tables.diagnostics
  {
  }

  /** One ingest counts itself under its reply, and an accepted one what it carries. */
  lemma IngestCounts(s: State, caps: Caps, value: Option<Submission>, now: int)
    requires Consistent(s) && ReceiptsOfRates(s) && caps.rollup >= 1 && caps.rate >= 1
    ensures var o := Ingest(s, caps, value, now);
            var d, e := s.tables.diagnostics, o.state.tables.diagnostics;
            && e.accepted == d.accepted + (if o.reply.Accepted? then 1 else 0)
            && e.deduped == d.deduped + (if o.reply.Deduped? then 1 else 0)
            && e.rejected == d.rejected + (if o.reply.Rejected? then 1 else 0)
            && e.metrics == d.metrics + (if o.reply.Accepted? then Units(value.value.metrics) else 0)
            && e.rates == d.rates + (if o.reply.Accepted? then |value.value.rates| else 0)
            && e.incomplete == d.incomplete + (if o.reply.Accepted? then Lacking(value.value) else 0)
            && e.observedAt == Some(now)
            && (o.reply.Accepted? ==> value.Some?)
  {
    hide Consistent, Recorded, Capped, ReceiptsOfRates, Acceptable, IncompleteMetrics, IncompleteRates, CountMetrics, Units,
      LackingUnits, LackingRates;
    if Ingest(s, caps, value, now).reply.Accepted? {
      var sub := value.value;
      RecordedIsConsistent(s, sub, now);
      RecordedKeepsCounters(s, sub, now);
      CappedKeepsCounters(Recorded(s, sub, now), caps, now);
      UnitsAreCounted(sub.metrics);
      RatesAreCounted(sub.rates);
    }
  }

  lemma OtherStepsCountNothing(s: State, caps: Caps, ev: Event)
    requires Consistent(s) && caps.rollup >= 1 && caps.rate >= 1 && Enabled(ev) && !ev.Submit?
    ensures Step(s, caps, ev).tables.diagnostics == s.tables.diagnostics
  {
    hide Consistent, Window, RatesSince;
  }

  /** Over a run the counters are exactly what was submitted and accepted: every submission is counted
      once, under its answer, and nothing the caps or retention drop is ever taken off again. */
  lemma {:induction false} DiagnosticsCountEverything(h: seq<State>, evs: seq<Event>, caps: Caps, n: nat)
    requires Run(h, evs, caps) && n <= |evs|
    ensures |h| == |evs| + 1
    ensures var d := h[n].tables.diagnostics;
            var accepted := AcceptedBy(h, evs, n);
            && d.accepted == |accepted|
            && d.accepted + d.deduped + d.rejected == Submissions(evs[..n])
            && d.metrics == AllUnits(accepted)
            && d.rates == AllRates(accepted)
            && d.incomplete == AllLacking(accepted)
    decreases n
  {
    hide Run, Consistent, Step, Sound, Ingest, Accepts, Units, Lacking, ReceiptsOfRates;
    RunLength(h, evs, caps);
    if n == 0 {
      RunStarts(h, evs, caps);
      assert evs[..0] == [];
    } else {
      var ev := evs[n - 1];
      DiagnosticsCountEverything(h, evs, caps, n - 1);
      RunIsOrdered(h, evs, caps, n - 1);
      RunIsSound(h, evs, caps, n - 1, ev.now);
      var before := AcceptedBy(h, evs, n - 1);
      SoundIsConsistent(h[n - 1], before, ev.now);
      RunStep(h, evs, caps, n - 1);
      assert evs[..n][..n - 1] == evs[..n - 1];
      if ev.Submit? {
        SubmitStep(h[n - 1], caps, ev);
        IngestCounts(h[n - 1], caps, ev.value, ev.now);
        IngestIsSound(h[n - 1], caps, ev.value, ev.now, before);
        AcceptedIsSubmitted(h[n - 1], ev);
        if Accepts(h[n - 1], ev) { AllAppend(before, ev.value.value); }
      } else {
        OtherStepsCountNothing(h[n - 1], caps, ev);
        AcceptedIsSubmitted(h[n - 1], ev);
      }
    }
  }

  lemma AcceptedIsSubmitted(s: State, ev: Event)
    ensures Accepts(s, ev) ==> ev.Submit? && ev.value.Some?
    ensures ev.Submit? ==> ev == Submit(ev.value, ev.now)
  {
  }

  lemma RunStarts(h: seq<State>, evs: seq<Event>, caps: Caps)
    requires Run(h, evs, caps)
    ensures h[0] == START
  {
  }

  lemma AllAppend(accepted: seq<Submission>, sub: Submission)
    ensures AllUnits(accepted + [sub]) == AllUnits(accepted) + Units(sub.metrics)
    ensures AllRates(accepted + [sub]) == AllRates(accepted) + |sub.rates|
    ensures AllLacking(accepted + [sub]) == AllLacking(accepted) + Lacking(sub)
  {
    assert (accepted + [sub])[..|accepted|] == accepted;
  }
}

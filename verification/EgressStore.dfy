/** The telemetry store itself: its tables, the fields it caches between calls, and its methods. */
module EgressStore {
  import opened Ordering
  import opened EgressTelemetry

  class Store {
    const caps: Caps
    var tables: Tables
    var lastMaintenanceAt: Option<int>
    var rowCounts: Option<Counts>
    var summaryCache: Option<Summary>

    ghost predicate Valid()
      reads this
    {
      caps.rollup >= 1 && caps.rate >= 1 && Consistent(Current())
    }

    function Current(): State
      reads this
    {
      State(tables, Memory(lastMaintenanceAt, rowCounts, summaryCache))
    }

    /** A limit that is not positive falls back to the built-in one. */
    constructor (maxRollupRows: int, maxRateLimitRows: int)
      ensures Valid() && Current() == State(NO_TABLES, UNUSED)
      ensures caps == Caps(if maxRollupRows > 0 then maxRollupRows else 50000, if maxRateLimitRows > 0 then maxRateLimitRows else 10000)
    {
      caps := Caps(if maxRollupRows > 0 then maxRollupRows else 50000, if maxRateLimitRows > 0 then maxRateLimitRows else 10000);
      tables := NO_TABLES;
      lastMaintenanceAt, rowCounts, summaryCache := None, None, None;
    }

    method UpsertMetric(k: RollupKey, n: int)
      modifies this
      ensures Current() == Upsert(old(Current()), k, n)
    {
      hide MaxRowid;
      tables := tables.(rollups := Upserted(tables.rollups, k, n));
      if rowCounts.Some? && tables.rollups[k].count == n {
        rowCounts := Some(rowCounts.value.(rollup := rowCounts.value.rollup + 1));
      }
    }

    method EnsureRowCounts()
      modifies this
      ensures Current() == EnsureCounts(old(Current()))
    {
      if rowCounts.None? {
        rowCounts := Some(Counts(|tables.rollups|, |tables.rates|));
      }
    }

    method PruneSync(now: int)
      modifies this
      ensures Current() == Prune(old(Current()), now)
    {
      hide Kept, KeptRates, KeptReceipts;
      var rollups := Kept(tables.rollups, now);
      if rowCounts.Some? {
        rowCounts := Some(rowCounts.value.(rollup := rowCounts.value.rollup - (|tables.rollups| - |rollups|)));
      }
      tables := tables.(rollups := rollups);
      var rates := KeptRates(tables.rates, now);
      if rowCounts.Some? {
        rowCounts := Some(rowCounts.value.(rate := rowCounts.value.rate - (|tables.rates| - |rates|)));
      }
      tables := tables.(rates := rates);
      tables := tables.(receipts := KeptReceipts(tables.receipts, now));
    }

    method MaintainSync(now: int)
      modifies this
      ensures Current() == Maintain(old(Current()), now)
    {
      hide Prune;
      if lastMaintenanceAt.Some? && now - lastMaintenanceAt.value < MAINTENANCE_INTERVAL_MS {
        return;
      }
      PruneSync(now);
      lastMaintenanceAt := Some(now);
      summaryCache := None;
    }

    method EvictOldestRollups(now: int)
      requires Valid() && rowCounts.Some?
      modifies this
      ensures Current() == EvictRollups(old(Current()), caps.rollup, now)
    {
      hide Oldest, Consistent, NoteRollups, RowidsDistinct, Members;
      ConsistentRowids(Current());
      if rowCounts.value.rollup <= caps.rollup {
        return;
      }
      var overflow := rowCounts.value.rollup - caps.rollup;
      var gone := Oldest(tables.rollups, overflow);
      var fiveMinutes, fiveMark := CountEvicted(gone, FiveMinute);
      var hours, hourMark := CountEvicted(gone, Hour);
      var diagnostics := NoteEvicted(tables.diagnostics, gone, overflow, now, fiveMinutes, hours, fiveMark, hourMark);
      tables := Tables(tables.rollups - Members(gone), tables.rates, tables.receipts, diagnostics);
      rowCounts := Some(rowCounts.value.(rollup := rowCounts.value.rollup - overflow));
    }

    /** The evicted rows of one kind, and the latest bucket among them. */
    method CountEvicted(gone: seq<RollupKey>, kind: Kind) returns (count: nat, mark: Option<int>)
      ensures count == CountKind(gone, kind) && mark == LatestStart(gone, kind)
    {
      count, mark := 0, None;
      var i := 0;
      while i < |gone|
        invariant 0 <= i <= |gone|
        invariant count == CountKind(gone[..i], kind) && mark == LatestStart(gone[..i], kind)
      {
        assert gone[..i + 1][..i] == gone[..i];
        if gone[i].kind == kind {
          count := count + 1;
          mark := Some(if mark.Some? && mark.value > gone[i].start then mark.value else gone[i].start);
        }
        i := i + 1;
      }
      assert gone[..|gone|] == gone;
    }

    method NoteEvicted(d: Diagnostics, gone: seq<RollupKey>, overflow: int, now: int,
                       fiveMinutes: nat, hours: nat, fiveMark: Option<int>, hourMark: Option<int>)
      returns (noted: Diagnostics)
      requires fiveMinutes == CountKind(gone, FiveMinute) && hours == CountKind(gone, Hour)
      requires fiveMark == LatestStart(gone, FiveMinute) && hourMark == LatestStart(gone, Hour)
      ensures noted == NoteRollups(d, gone, overflow, now)
    {
      hide CountKind, LatestStart;
      noted := d.(
      evictedRollups := d.evictedRollups + overflow,
      evictedFive := d.evictedFive + fiveMinutes,
      evictedHour := d.evictedHour + hours,
      rollupEvictedAt := Some(now),
      fiveMark := Raise(d.fiveMark, fiveMark),
      hourMark := Raise(d.hourMark, hourMark));
    }

    method EvictOldestRates(now: int)
      requires Valid() && rowCounts.Some?
      modifies this
      ensures Current() == EvictRates(old(Current()), caps.rate, now)
    {
      hide OldestRates, Consistent, LatestObserved, NoteRates, Indexed, Members, RowidsDistinct;
      ConsistentRowids(Current());
      if rowCounts.value.rate <= caps.rate {
        return;
      }
      var overflow := rowCounts.value.rate - caps.rate;
      var gone := OldestRates(tables.rates, overflow);
      var mark := LatestEvicted(tables.rates, gone);
      tables := Tables(tables.rollups, tables.rates - Members(gone), tables.receipts,
                       NoteRates(tables.diagnostics, mark, overflow, now));
      rowCounts := Some(rowCounts.value.(rate := rowCounts.value.rate - overflow));
    }

    method LatestEvicted(rates: map<EventId, Observation>, gone: seq<EventId>) returns (mark: Option<int>)
      requires forall e | e in gone :: e in rates
      ensures mark == LatestObserved(rates, gone)
    {
      mark := None;
      var i := 0;
      while i < |gone|
        invariant 0 <= i <= |gone|
        invariant mark == LatestObserved(rates, gone[..i])
      {
        assert gone[..i + 1][..i] == gone[..i];
        var at := rates[gone[i]].observedAt;
        mark := Some(if mark.Some? && mark.value > at then mark.value else at);
        i := i + 1;
      }
      assert gone[..|gone|] == gone;
    }

    method EnforceCapsSync(now: int)
      requires Valid() && rowCounts.Some?
      modifies this
      ensures Current() == Capped(old(Current()), caps, now)
    {
      hide Consistent, EvictRollups, EvictRates, Members;
      EvictRollupsKeepsConsistent(Current(), caps.rollup, now);
      EvictOldestRollups(now);
      EvictOldestRates(now);
    }

    method AddMetricRows(metrics: seq<Metric>) returns (incomplete: int)
      modifies this
      ensures Current() == AddMetrics(old(Current()), metrics)
      ensures incomplete == IncompleteMetrics(metrics)
    {
      hide Upsert;
      incomplete := 0;
      var i := 0;
      while i < |metrics|
        invariant 0 <= i <= |metrics|
        invariant AddMetrics(Current(), metrics[i..]) == AddMetrics(old(Current()), metrics)
        invariant incomplete == IncompleteMetrics(metrics[..i])
      {
        assert metrics[i..][1..] == metrics[i + 1..] && metrics[..i + 1][..i] == metrics[..i];
        UpsertMetric(FiveKey(metrics[i]), metrics[i].count);
        UpsertMetric(HourKey(metrics[i]), metrics[i].count);
        if !metrics[i].dims.complete {
          incomplete := incomplete + metrics[i].count;
        }
        i := i + 1;
      }
      assert metrics[..|metrics|] == metrics;
    }

    method AddRateRows(receipt: int, rates: seq<Observation>) returns (incomplete: int)
      modifies this
      ensures Current() == AddRates(old(Current()), receipt, rates, 0)
      ensures incomplete == IncompleteRates(rates)
    {
      incomplete := 0;
      var i := 0;
      while i < |rates|
        invariant 0 <= i <= |rates|
        invariant AddRates(Current(), receipt, rates[i..], i) == AddRates(old(Current()), receipt, rates, 0)
        invariant incomplete == IncompleteRates(rates[..i])
      {
        assert rates[i..][1..] == rates[i + 1..] && rates[..i + 1][..i] == rates[..i];
        var id := EventId(receipt, i);
        if id !in tables.rates {
          tables := tables.(rates := tables.rates[id := rates[i]]);
          if rowCounts.Some? {
            rowCounts := Some(rowCounts.value.(rate := rowCounts.value.rate + 1));
          }
        }
        if !rates[i].complete {
          incomplete := incomplete + 1;
        }
        i := i + 1;
      }
      assert rates[..|rates|] == rates;
    }

    method SumMetrics(metrics: seq<Metric>) returns (total: int)
      ensures total == CountMetrics(metrics)
    {
      total := 0;
      var i := 0;
      while i < |metrics|
        invariant 0 <= i <= |metrics| && total == CountMetrics(metrics[..i])
      {
        assert metrics[..i + 1][..i] == metrics[..i];
        total := total + metrics[i].count;
        i := i + 1;
      }
      assert metrics[..|metrics|] == metrics;
    }

    method Ingest(value: Option<Submission>, now: int) returns (reply: Reply)
      requires Valid()
      modifies this
      ensures Outcome(Current(), reply) == EgressTelemetry.Ingest(old(Current()), caps, value, now)
    {
      hide Consistent, Acceptable, AddMetrics, AddRates, Maintain, Capped, CountMetrics, IncompleteMetrics, IncompleteRates;
      var d := tables.diagnostics;
      if value.None? || !Acceptable(value.value, now) {
        tables := tables.(diagnostics := d.(rejected := d.rejected + 1, observedAt := Some(now)));
        return Rejected;
      }
      var sub := value.value;
      if sub.receipt in tables.receipts {
        tables := tables.(diagnostics := d.(deduped := d.deduped + 1, observedAt := Some(now)));
        return Deduped;
      }
      RecordedIsConsistent(Current(), sub, now);
      MaintainSync(now);
      EnsureRowCounts();
      summaryCache := None;
      var incomplete := AddMetricRows(sub.metrics);
      var incompleteRates := AddRateRows(sub.receipt, sub.rates);
      tables := tables.(receipts := tables.receipts[sub.receipt := now]);
      assert Current() == Recorded(old(Current()), sub, now);
      EnforceCapsSync(now);
      var total := SumMetrics(sub.metrics);
      d := tables.diagnostics;
      tables := tables.(diagnostics := d.(
        accepted := d.accepted + 1,
        metrics := d.metrics + total,
        rates := d.rates + |sub.rates|,
        incomplete := d.incomplete + incomplete + incompleteRates,
        observedAt := Some(now)));
      return Accepted;
    }

    method PublicSummary(now: int) returns (report: Report)
      modifies this
      ensures Answer(Current(), report) == EgressTelemetry.PublicSummary(old(Current()), now)
    {
      hide Maintain, Window, RollupWindowComplete, RateWindowComplete, Aligned;
      MaintainSync(now);
      var start := Aligned(FiveMinute, now - SUMMARY_WINDOW_MS);
      if !(summaryCache.Some? && summaryCache.value.start == start) {
        summaryCache := Some(Summary(start, Window(tables.rollups, FiveMinute, start)));
      }
      return Report(FiveMinute, start, summaryCache.value.rows, map[], now - SUMMARY_WINDOW_MS,
                    RollupWindowComplete(tables.diagnostics, FiveMinute, start),
                    RateWindowComplete(tables.diagnostics, now - SUMMARY_WINDOW_MS));
    }

    /** None: the window is not one of those supported. */
    method PublicObservability(window: int, now: int) returns (report: Option<Report>)
      modifies this
      ensures report.Some? <==> Supported(window)
      ensures report.Some? ==> Answer(Current(), report.value) == EgressTelemetry.PublicObservability(old(Current()), window, now)
      ensures report.None? ==> Current() == old(Current())
    {
      hide Maintain, Window, RollupWindowComplete, RateWindowComplete, Aligned, RatesSince;
      if !Supported(window) {
        return None;
      }
      MaintainSync(now);
      var kind := WindowKind(window);
      var start := Aligned(kind, now - window);
      var rateStart := if now - window < now - RATE_RETENTION_MS then now - RATE_RETENTION_MS else now - window;
      return Some(Report(kind, start, Window(tables.rollups, kind, start), RatesSince(tables.rates, rateStart), now - window,
                         RollupWindowComplete(tables.diagnostics, kind, start),
                         window <= RATE_RETENTION_MS && RateWindowComplete(tables.diagnostics, now - window)));
    }
  }
}

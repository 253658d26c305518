/** What the telemetry store publishes is sound: over every run, a window it calls complete holds
    exactly what was ever accepted for it, and no submission is counted twice. */
module EgressCompleteness {
  import opened Ordering
  import opened EgressTelemetry

  // ----- what was accepted, by definition -----

  /** The bucket the metric belongs to: its own five minutes, or the full hour around them. */
  predicate Covers(k: RollupKey, m: Metric) {
    k.dims == m.dims &&
    match k.kind
    case FiveMinute => k.start == m.start
    case Hour => k.start % 3600000 == 0 && k.start <= m.start < k.start + 3600000
  }

  function Given(m: Metric, k: RollupKey): int { if Covers(k, m) then m.count else 0 }

  lemma KeysCover(m: Metric, k: RollupKey)
    ensures Covers(k, m) <==> k == FiveKey(m) || k == HourKey(m)
  {
    if k.kind.Hour? && k.start % 3600000 == 0 && k.start <= m.start < k.start + 3600000 {
      assert k.start == k.start / 3600000 * 3600000;
      assert m.start / 3600000 == k.start / 3600000;
    }
  }

  function GivenAll(metrics: seq<Metric>, k: RollupKey): int {
    if metrics == [] then 0 else Given(metrics[0], k) + GivenAll(metrics[1..], k)
  }

  /** The sum of all metrics ever accepted for one dimension key. */
  function Total(accepted: seq<Submission>, k: RollupKey): int {
    if accepted == [] then 0
    else Total(accepted[..|accepted| - 1], k) + GivenAll(accepted[|accepted| - 1].metrics, k)
  }

  /** Whether some accepted submission carried this observation in this position. */
  ghost predicate Seen(accepted: seq<Submission>, e: EventId, o: Observation) {
    exists s | s in accepted :: Carries(s, e, o)
  }

  ghost predicate Carries(s: Submission, e: EventId, o: Observation) {
    s.receipt == e.receipt && 0 <= e.index < |s.rates| && s.rates[e.index] == o
  }

  function Count(rollups: map<RollupKey, Rollup>, k: RollupKey): int {
    if k in rollups then rollups[k].count else 0
  }

  // ----- the invariant -----

  /** Rollup counts fall short of the totals only at or below the published watermark, or beyond
      retention; and each watermark names a bucket that did lose something. */
  ghost predicate RollupsSound(s: State, accepted: seq<Submission>, clock: int) {
    && (forall k :: Count(s.tables.rollups, k) <= Total(accepted, k))
    && (forall k :: Count(s.tables.rollups, k) == Total(accepted, k) || Excused(s.tables.diagnostics, clock, k))
    && (forall kind: Kind :: MarkSound(s, accepted, kind))
  }

  ghost predicate Excused(d: Diagnostics, clock: int, k: RollupKey) {
    || k.start < clock - Retention(k.kind)
    || (Mark(d, k.kind).Some? && k.start <= Mark(d, k.kind).value)
  }

  ghost predicate MarkSound(s: State, accepted: seq<Submission>, kind: Kind) {
    var d := s.tables.diagnostics;
    && 0 <= Evicted(d, kind)
    && (Mark(d, kind).Some? <==> Evicted(d, kind) > 0)
    && (Mark(d, kind).Some? ==> exists k: RollupKey | k.kind == kind && k.start == Mark(d, kind).value :: Short(s, accepted, k))
  }

  ghost predicate Short(s: State, accepted: seq<Submission>, k: RollupKey) {
    Count(s.tables.rollups, k) < Total(accepted, k)
  }

  ghost predicate RatesSound(s: State, accepted: seq<Submission>, clock: int) {
    var d := s.tables.diagnostics;
    && (forall e | e in s.tables.rates :: Seen(accepted, e, s.tables.rates[e]))
    && (forall e, o | Seen(accepted, e, o) ::
          || (e in s.tables.rates && s.tables.rates[e] == o)
          || o.observedAt < clock - RATE_RETENTION_MS
          || (d.rateMark.Some? && o.observedAt <= d.rateMark.value))
    && 0 <= d.evictedRates && (d.rateMark.Some? <==> d.evictedRates > 0)
    && RateMarkSound(s, accepted)
  }

  /** The watermark names an observation that was lost. */
  ghost predicate RateMarkSound(s: State, accepted: seq<Submission>) {
    s.tables.diagnostics.rateMark.Some? ==>
      exists e: EventId, o: Observation :: o.observedAt == s.tables.diagnostics.rateMark.value && Lost(s, accepted, e, o)
  }

  ghost predicate Lost(s: State, accepted: seq<Submission>, e: EventId, o: Observation) {
    Seen(accepted, e, o) && !(e in s.tables.rates && s.tables.rates[e] == o)
  }

  /** What is lost stays lost while rows only go. */
  lemma LostStays(s: State, u: State, accepted: seq<Submission>)
    requires RateMarkSound(s, accepted) && u.tables.diagnostics.rateMark == s.tables.diagnostics.rateMark
    requires forall e | e in u.tables.rates :: e in s.tables.rates && u.tables.rates[e] == s.tables.rates[e]
    ensures RateMarkSound(u, accepted)
  {
    hide Seen;
    if s.tables.diagnostics.rateMark.Some? {
      var e: EventId, o: Observation :| o.observedAt == s.tables.diagnostics.rateMark.value && Lost(s, accepted, e, o);
      assert Lost(u, accepted, e, o);
    }
  }

  /** Every time stamp a submission carries is at most this. */
  ghost predicate Before(sub: Submission, limit: int) {
    (forall m | m in sub.metrics :: m.start <= limit) && (forall o | o in sub.rates :: o.observedAt <= limit)
  }

  /** An accepted submission is remembered by its receipt, or is too old to be accepted again. */
  ghost predicate Remembered(s: State, sub: Submission, clock: int) {
    || (sub.receipt in s.tables.receipts && Before(sub, s.tables.receipts[sub.receipt] + AHEAD_MS))
    || Before(sub, clock - RECEIPT_RETENTION_MS + AHEAD_MS)
  }

  ghost predicate ReceiptsSound(s: State, accepted: seq<Submission>, clock: int) {
    && (forall r | r in s.tables.receipts :: s.tables.receipts[r] <= clock)
    && (forall sub | sub in accepted :: Remembered(s, sub, clock))
    && (forall e | e in s.tables.rates ::
          e.receipt in s.tables.receipts && s.tables.rates[e].observedAt <= s.tables.receipts[e.receipt] + AHEAD_MS)
  }

  /** A cached summary is what the window would give now. */
  ghost predicate SummaryFresh(s: State) {
    s.memory.summary.Some? ==>
      s.memory.summary.value.rows == Window(s.tables.rollups, FiveMinute, s.memory.summary.value.start)
  }

  ghost predicate Sound(s: State, accepted: seq<Submission>, clock: int) {
    && Consistent(s) && RollupsSound(s, accepted, clock) && RatesSound(s, accepted, clock)
    && ReceiptsSound(s, accepted, clock) && SummaryFresh(s)
  }

  const START := State(NO_TABLES, UNUSED)

  lemma StartIsSound(clock: int)
    ensures Sound(START, [], clock)
  {
    assert forall k :: Total([], k) == 0;
  }

  // ----- what lowers counts -----

  ghost predicate Lowered(s: State, u: State) {
    forall k :: Count(u.tables.rollups, k) <= Count(s.tables.rollups, k)
  }

  lemma CountsArePositive(s: State)
    requires Consistent(s)
    ensures forall k :: 0 <= Count(s.tables.rollups, k) && (k in s.tables.rollups ==> 0 < Count(s.tables.rollups, k))
  {
  }

  lemma MarkStays(s: State, u: State, accepted: seq<Submission>, kind: Kind)
    requires Lowered(s, u) && MarkSound(s, accepted, kind)
    requires Mark(u.tables.diagnostics, kind) == Mark(s.tables.diagnostics, kind)
    requires Evicted(u.tables.diagnostics, kind) == Evicted(s.tables.diagnostics, kind)
    ensures MarkSound(u, accepted, kind)
  {
    hide Total, Count;
    var d := s.tables.diagnostics;
    if Mark(d, kind).Some? {
      var k: RollupKey :| k.kind == kind && k.start == Mark(d, kind).value && Short(s, accepted, k);
      assert Short(u, accepted, k);
    }
  }

  // ----- retention -----

  lemma PrunedCount(s: State, now: int, k: RollupKey)
    ensures Count(Prune(s, now).tables.rollups, k) ==
            if k.start < now - Retention(k.kind) then 0 else Count(s.tables.rollups, k)
  {
  }

  lemma PruneKeepsDiagnostics(s: State, now: int)
    ensures Prune(s, now).tables.diagnostics == s.tables.diagnostics
  {
  }

  lemma PruneKeepsRollupsSound(s: State, accepted: seq<Submission>, now: int)
    requires Consistent(s) && RollupsSound(s, accepted, now)
    ensures RollupsSound(Prune(s, now), accepted, now)
  {
    hide Total, Prune, Consistent, Count, MarkSound;
    var p := Prune(s, now);
    CountsArePositive(s);
    PruneKeepsDiagnostics(s, now);
    forall k
      ensures Count(p.tables.rollups, k) <= Count(s.tables.rollups, k)
      ensures k.start < now - Retention(k.kind) || Count(p.tables.rollups, k) == Count(s.tables.rollups, k)
    {
      PrunedCount(s, now, k);
    }
    forall kind: Kind ensures MarkSound(p, accepted, kind) {
      MarkStays(s, p, accepted, kind);
    }
  }

  lemma PruneKeepsRatesSound(s: State, accepted: seq<Submission>, now: int)
    requires RatesSound(s, accepted, now)
    ensures RatesSound(Prune(s, now), accepted, now)
  {
    hide Seen, Kept, KeptReceipts, RateMarkSound;
    LostStays(s, Prune(s, now), accepted);
  }

  lemma PruneKeepsReceiptsSound(s: State, accepted: seq<Submission>, now: int)
    requires ReceiptsSound(s, accepted, now)
    ensures ReceiptsSound(Prune(s, now), accepted, now)
  {
    hide Kept;
    var p := Prune(s, now);
    forall sub | sub in accepted ensures Remembered(p, sub, now) {
      assert Remembered(s, sub, now);
    }
  }

  lemma MaintainIsSound(s: State, accepted: seq<Submission>, now: int)
    requires Sound(s, accepted, now)
    ensures Sound(Maintain(s, now), accepted, now)
  {
    hide Prune, Consistent, RollupsSound, RatesSound, ReceiptsSound;
    if MaintenanceDue(s.memory, now) {
      var p := Prune(s, now);
      PruneKeepsConsistent(s, now);
      PruneKeepsRollupsSound(s, accepted, now);
      PruneKeepsRatesSound(s, accepted, now);
      PruneKeepsReceiptsSound(s, accepted, now);
      SameTablesAreSound(p, Maintain(s, now), accepted, now);
    }
  }

  /** Soundness looks at the tables and at the two exact caches only. */
  lemma SameTablesAreSound(s: State, u: State, accepted: seq<Submission>, clock: int)
    requires Consistent(s) && RollupsSound(s, accepted, clock) && RatesSound(s, accepted, clock) && ReceiptsSound(s, accepted, clock)
    requires SameEvidence(s, u)
    ensures RollupsSound(u, accepted, clock) && RatesSound(u, accepted, clock) && ReceiptsSound(u, accepted, clock)
    ensures u.memory.counts == s.memory.counts ==> Consistent(u)
  {
    hide Total, Count, Seen, RateMarkSound;
    LostStays(s, u, accepted);
    forall kind: Kind ensures MarkSound(u, accepted, kind) {
      MarkStays(s, u, accepted, kind);
    }
    forall sub | sub in accepted ensures Remembered(u, sub, clock) {
      assert Remembered(s, sub, clock);
    }
    hide RatesSound, RollupsSound, ReceiptsSound;
  }

  /** The same rows, and diagnostics that say the same about evictions. */
  ghost predicate SameEvidence(s: State, u: State) {
    var d, e := s.tables.diagnostics, u.tables.diagnostics;
    && u.tables == s.tables.(diagnostics := e)
    && e == d.(accepted := e.accepted, deduped := e.deduped, rejected := e.rejected, metrics := e.metrics, rates := e.rates,
               incomplete := e.incomplete, observedAt := e.observedAt)
  }

  lemma LaterIsSound(s: State, accepted: seq<Submission>, clock: int, later: int)
    requires Sound(s, accepted, clock) && clock <= later
    ensures Sound(s, accepted, later)
  {
    hide Consistent, Total, Seen, SummaryFresh, MarkSound, Count, RateMarkSound;
    forall sub | sub in accepted ensures Remembered(s, sub, later) {
      assert Remembered(s, sub, clock);
    }
  }

  // ----- an accepted submission -----

  lemma UpsertedCount(s: State, k: RollupKey, n: int, j: RollupKey)
    ensures Count(Upsert(s, k, n).tables.rollups, j) == Count(s.tables.rollups, j) + if j == k then n else 0
    ensures Upsert(s, k, n).tables == s.tables.(rollups := Upsert(s, k, n).tables.rollups)
    ensures Upsert(s, k, n).memory.summary == s.memory.summary
  {
  }

  lemma {:induction false} AddedCount(s: State, metrics: seq<Metric>, j: RollupKey)
    ensures var u := AddMetrics(s, metrics);
            && Count(u.tables.rollups, j) == Count(s.tables.rollups, j) + GivenAll(metrics, j)
            && u.tables == s.tables.(rollups := u.tables.rollups) && u.memory.summary == s.memory.summary
    decreases |metrics|
  {
    hide Count, Upsert, Covers, Aligned;
    if metrics != [] {
      var m := metrics[0];
      KeysCover(m, j);
      UpsertedCount(s, FiveKey(m), m.count, j);
      UpsertedCount(Upsert(s, FiveKey(m), m.count), HourKey(m), m.count, j);
      AddedCount(AddMetric(s, m), metrics[1..], j);
    }
  }

  lemma {:induction false} GivenIsNatural(metrics: seq<Metric>, k: RollupKey)
    requires forall m | m in metrics :: m.count >= 1
    ensures GivenAll(metrics, k) >= 0
  {
    if metrics != [] {
      assert metrics[0] in metrics;
      GivenIsNatural(metrics[1..], k);
    }
  }

  lemma TotalAppends(accepted: seq<Submission>, sub: Submission, k: RollupKey)
    ensures Total(accepted + [sub], k) == Total(accepted, k) + GivenAll(sub.metrics, k)
  {
    assert (accepted + [sub])[..|accepted|] == accepted;
  }

  lemma AddingKeepsRollupsSound(s: State, u: State, accepted: seq<Submission>, sub: Submission, clock: int)
    requires RollupsSound(s, accepted, clock)
    requires forall k :: Count(u.tables.rollups, k) == Count(s.tables.rollups, k) + GivenAll(sub.metrics, k)
    requires u.tables.diagnostics == s.tables.diagnostics
    ensures RollupsSound(u, accepted + [sub], clock)
  {
    hide Count, Total, GivenAll;
    forall k ensures Total(accepted + [sub], k) == Total(accepted, k) + GivenAll(sub.metrics, k) {
      TotalAppends(accepted, sub, k);
    }
    forall kind: Kind ensures MarkSound(u, accepted + [sub], kind) {
      assert MarkSound(s, accepted, kind);
      var d := s.tables.diagnostics;
      if Mark(d, kind).Some? {
        var k: RollupKey :| k.kind == kind && k.start == Mark(d, kind).value && Short(s, accepted, k);
        assert Short(u, accepted + [sub], k);
      }
    }
  }

  lemma {:induction false} AddedRates(s: State, receipt: int, rates: seq<Observation>, index: int)
    requires 0 <= index && forall e | e in s.tables.rates && e.receipt == receipt :: e.index < index
    ensures var u := AddRates(s, receipt, rates, index);
            && u.tables == s.tables.(rates := u.tables.rates) && u.memory.summary == s.memory.summary
            && (forall e :: e in u.tables.rates <==> e in s.tables.rates || (e.receipt == receipt && index <= e.index < index + |rates|))
            && (forall e | e in s.tables.rates :: u.tables.rates[e] == s.tables.rates[e])
            && (forall i | 0 <= i < |rates| :: u.tables.rates[EventId(receipt, index + i)] == rates[i])
    decreases |rates|
  {
    if rates != [] {
      var id := EventId(receipt, index);
      var v := AddRate(s, id, rates[0]);
      assert v.tables.rates == s.tables.rates[id := rates[0]];
      AddedRates(v, receipt, rates[1..], index + 1);
      var u := AddRates(s, receipt, rates, index);
      forall i | 0 <= i < |rates| ensures u.tables.rates[EventId(receipt, index + i)] == rates[i] {
        if i > 0 {
          assert rates[i] == rates[1..][i - 1];
          assert EventId(receipt, index + i) == EventId(receipt, index + 1 + (i - 1));
        }
      }
    }
  }

  lemma SeenAppends(accepted: seq<Submission>, sub: Submission, e: EventId, o: Observation)
    ensures Seen(accepted + [sub], e, o) <==> Seen(accepted, e, o) || Carries(sub, e, o)
  {
    if Seen(accepted, e, o) {
      var s :| s in accepted && Carries(s, e, o);
      assert s in accepted + [sub];
    }
    assert sub in accepted + [sub];
  }

  /** The rate limit rows of `u` are those of `s` and the submission's own. */
  ghost predicate RatesAdded(s: State, u: State, sub: Submission) {
    && (forall e, o :: (e in u.tables.rates && u.tables.rates[e] == o) <==>
          (e in s.tables.rates && s.tables.rates[e] == o) || Carries(sub, e, o))
  }

  lemma AddingKeepsRatesSound(s: State, u: State, accepted: seq<Submission>, sub: Submission, clock: int)
    requires RatesSound(s, accepted, clock) && RatesAdded(s, u, sub) && u.tables.diagnostics == s.tables.diagnostics
    requires forall e, o | Seen(accepted, e, o) :: !Carries(sub, e, o)
    ensures RatesSound(u, accepted + [sub], clock)
  {
    hide Seen, Carries, RateMarkSound;
    LostIsNotBroughtBack(s, u, accepted, sub);
    forall e, o ensures Seen(accepted + [sub], e, o) <==> Seen(accepted, e, o) || Carries(sub, e, o) {
      SeenAppends(accepted, sub, e, o);
    }
    forall e | e in u.tables.rates ensures Seen(accepted + [sub], e, u.tables.rates[e]) {
      assert (e in s.tables.rates && s.tables.rates[e] == u.tables.rates[e]) || Carries(sub, e, u.tables.rates[e]);
    }
    var d := s.tables.diagnostics;
    forall e, o | Seen(accepted + [sub], e, o)
      ensures || (e in u.tables.rates && u.tables.rates[e] == o)
              || o.observedAt < clock - RATE_RETENTION_MS
              || (d.rateMark.Some? && o.observedAt <= d.rateMark.value)
    {
      if !Carries(sub, e, o) {
        assert Seen(accepted, e, o);
      }
    }
  }

  lemma LostIsNotBroughtBack(s: State, u: State, accepted: seq<Submission>, sub: Submission)
    requires RateMarkSound(s, accepted) && RatesAdded(s, u, sub) && u.tables.diagnostics == s.tables.diagnostics
    requires forall e, o | Seen(accepted, e, o) :: !Carries(sub, e, o)
    ensures RateMarkSound(u, accepted + [sub])
  {
    hide Seen, Carries;
    if s.tables.diagnostics.rateMark.Some? {
      var e: EventId, o: Observation :| o.observedAt == s.tables.diagnostics.rateMark.value && Lost(s, accepted, e, o);
      SeenAppends(accepted, sub, e, o);
      assert Lost(u, accepted + [sub], e, o);
    }
  }

  /** A receipt that was forgotten belongs to a submission too old to share an observation. */
  lemma ForgottenIsNotRepeated(s: State, accepted: seq<Submission>, sub: Submission, now: int)
    requires ReceiptsSound(s, accepted, now) && Acceptable(sub, now) && sub.receipt !in s.tables.receipts
    ensures forall e, o | Seen(accepted, e, o) :: !Carries(sub, e, o)
  {
    forall e, o | Seen(accepted, e, o) ensures !Carries(sub, e, o) {
      var x :| x in accepted && Carries(x, e, o);
      assert Remembered(s, x, now) && o in x.rates;
      assert Carries(sub, e, o) ==> o in sub.rates && FreshObservation(o, now);
    }
  }

  lemma AddingKeepsReceiptsSound(s: State, u: State, accepted: seq<Submission>, sub: Submission, now: int)
    requires ReceiptsSound(s, accepted, now) && RatesAdded(s, u, sub) && Acceptable(sub, now)
    requires sub.receipt !in s.tables.receipts && u.tables.receipts == s.tables.receipts[sub.receipt := now]
    ensures ReceiptsSound(u, accepted + [sub], now)
  {
    assert Before(sub, now + AHEAD_MS);
    forall x | x in accepted + [sub] ensures Remembered(u, x, now) {
      if x in accepted {
        assert Remembered(s, x, now);
      }
    }
    forall e | e in u.tables.rates
      ensures e.receipt in u.tables.receipts && u.tables.rates[e].observedAt <= u.tables.receipts[e.receipt] + AHEAD_MS
    {
      var o := u.tables.rates[e];
      if Carries(sub, e, o) {
        assert o in sub.rates;
      } else {
        assert e in s.tables.rates && s.tables.rates[e] == o;
      }
    }
  }

  /** The state an accepted submission is written into. */
  ghost function Opened(s: State, now: int): State {
    var m := EnsureCounts(Maintain(s, now));
    m.(memory := m.memory.(summary := None))
  }

  lemma OpenedIsSound(s: State, accepted: seq<Submission>, now: int)
    requires Sound(s, accepted, now)
    ensures Sound(Opened(s, now), accepted, now) && Opened(s, now).tables == Maintain(s, now).tables
    ensures Opened(s, now).memory.summary.None?
  {
    hide Maintain, RollupsSound, RatesSound, ReceiptsSound;
    var m := Maintain(s, now);
    MaintainIsSound(s, accepted, now);
    SameTablesAreSound(m, Opened(s, now), accepted, now);
  }

  lemma MaintainDropsReceiptsOnly(s: State, now: int, receipt: int)
    requires receipt !in s.tables.receipts
    ensures receipt !in Maintain(s, now).tables.receipts
  {
  }

  lemma RecordedShape(s: State, sub: Submission, now: int)
    requires forall e | e in Opened(s, now).tables.rates :: e.receipt != sub.receipt
    ensures var o := Opened(s, now);
            var u := Recorded(s, sub, now);
            && (forall k :: Count(u.tables.rollups, k) == Count(o.tables.rollups, k) + GivenAll(sub.metrics, k))
            && RatesAdded(o, u, sub)
            && u.tables.receipts == o.tables.receipts[sub.receipt := now]
            && u.tables.diagnostics == o.tables.diagnostics
            && u.memory.summary == o.memory.summary
  {
    hide Opened, AddMetrics, AddRates, Count, GivenAll, Carries;
    var o := Opened(s, now);
    var a := AddMetrics(o, sub.metrics);
    var b := AddRates(a, sub.receipt, sub.rates, 0);
    assert Recorded(s, sub, now) == b.(tables := b.tables.(receipts := b.tables.receipts[sub.receipt := now])) by { RecordedOpens(s, sub, now); }
    hide Recorded;
    forall k
      ensures Count(a.tables.rollups, k) == Count(o.tables.rollups, k) + GivenAll(sub.metrics, k)
      ensures a.tables == o.tables.(rollups := a.tables.rollups) && a.memory.summary == o.memory.summary
    {
      AddedCount(o, sub.metrics, k);
    }
    AddedCount(o, sub.metrics, RollupKey(Hour, 0, Dims("", true)));
    AddedRates(a, sub.receipt, sub.rates, 0);
    RatesAddedFrom(o, b, sub);
  }

  lemma RatesAddedFrom(o: State, b: State, sub: Submission)
    requires forall e | e in o.tables.rates :: e.receipt != sub.receipt
    requires forall e :: e in b.tables.rates <==> e in o.tables.rates || (e.receipt == sub.receipt && 0 <= e.index < 0 + |sub.rates|)
    requires forall e | e in o.tables.rates :: b.tables.rates[e] == o.tables.rates[e]
    requires forall i | 0 <= i < |sub.rates| :: b.tables.rates[EventId(sub.receipt, 0 + i)] == sub.rates[i]
    ensures RatesAdded(o, b, sub)
  {
    forall e, x | Carries(sub, e, x) ensures e in b.tables.rates && b.tables.rates[e] == x {
      assert e == EventId(sub.receipt, 0 + e.index);
    }
    forall e | e in b.tables.rates && e !in o.tables.rates ensures Carries(sub, e, b.tables.rates[e]) {
      assert e == EventId(sub.receipt, 0 + e.index);
    }
  }

  lemma RecordedOpens(s: State, sub: Submission, now: int)
    ensures var b := AddRates(AddMetrics(Opened(s, now), sub.metrics), sub.receipt, sub.rates, 0);
            Recorded(s, sub, now) == b.(tables := b.tables.(receipts := b.tables.receipts[sub.receipt := now]))
  {
    hide AddMetrics, AddRates, Maintain, EnsureCounts;
  }

  lemma RecordedIsSound(s: State, accepted: seq<Submission>, sub: Submission, now: int)
    requires Sound(s, accepted, now) && Acceptable(sub, now) && sub.receipt !in s.tables.receipts
    ensures Sound(Recorded(s, sub, now), accepted + [sub], now) && Recorded(s, sub, now).memory.counts.Some?
  {
    hide Recorded, RollupsSound, RatesSound, Consistent, Opened, Maintain, Acceptable, RatesAdded, Count, GivenAll;
    var o := Opened(s, now);
    OpenedIsSound(s, accepted, now);
    RecordedIsConsistent(s, sub, now);
    MaintainDropsReceiptsOnly(s, now, sub.receipt);
    hide Remembered, Carries, Seen, RateMarkSound;
    RecordedShape(s, sub, now);
    var u := Recorded(s, sub, now);
    ForgottenIsNotRepeated(o, accepted, sub, now);
    hide ReceiptsSound;
    AddingKeepsRollupsSound(o, u, accepted, sub, now);
    AddingKeepsRatesSound(o, u, accepted, sub, now);
    AddingKeepsReceiptsSound(o, u, accepted, sub, now);
  }

  // ----- cap eviction -----

  lemma {:induction false} LatestStartIsLatest(keys: seq<RollupKey>, kind: Kind)
    ensures var latest := LatestStart(keys, kind);
            && (forall k | k in keys && k.kind == kind :: latest.Some? && k.start <= latest.value)
            && (latest.Some? ==> exists k | k in keys :: k.kind == kind && k.start == latest.value)
            && (latest.Some? <==> CountKind(keys, kind) > 0)
  {
    if keys != [] {
      var init, last := keys[..|keys| - 1], keys[|keys| - 1];
      LatestStartIsLatest(init, kind);
      assert keys == init + [last];
    }
  }

  lemma EvictedCount(s: State, cap: int, now: int, k: RollupKey)
    requires Consistent(s) && s.memory.counts.Some? && s.memory.counts.value.rollup > cap
    ensures var e := EvictRollups(s, cap, now);
            Count(e.tables.rollups, k) ==
              if k in Oldest(s.tables.rollups, s.memory.counts.value.rollup - cap) then 0 else Count(s.tables.rollups, k)
  {
    hide Oldest, NoteRollups, Consistent, EvictRollups, RowidsDistinct;
    ConsistentRowids(s);
    EvictedRollups(s, cap, now);
  }

  lemma NotedMark(d: Diagnostics, gone: seq<RollupKey>, overflow: int, now: int, kind: Kind)
    ensures var e := NoteRollups(d, gone, overflow, now);
            && Mark(e, kind) == Raise(Mark(d, kind), LatestStart(gone, kind))
            && Evicted(e, kind) == Evicted(d, kind) + CountKind(gone, kind)
            && e.rateMark == d.rateMark && e.evictedRates == d.evictedRates
  {
    hide LatestStart, CountKind;
  }

  lemma EvictingKeepsMark(s: State, u: State, accepted: seq<Submission>, gone: seq<RollupKey>, overflow: int, now: int, kind: Kind)
    requires MarkSound(s, accepted, kind) && Lowered(s, u)
    requires u.tables.diagnostics == NoteRollups(s.tables.diagnostics, gone, overflow, now)
    requires forall k | k in gone :: Short(u, accepted, k)
    ensures MarkSound(u, accepted, kind)
  {
    hide NoteRollups, LatestStart, CountKind, Count, Total;
    NotedMark(s.tables.diagnostics, gone, overflow, now, kind);
    LatestStartIsLatest(gone, kind);
    var d, e := s.tables.diagnostics, u.tables.diagnostics;
    if Mark(e, kind).Some? {
      if LatestStart(gone, kind).Some? && Mark(e, kind) == LatestStart(gone, kind) {
        var k :| k in gone && k.kind == kind && k.start == Mark(e, kind).value;
        assert Short(u, accepted, k);
      } else {
        var k: RollupKey :| k.kind == kind && k.start == Mark(d, kind).value && Short(s, accepted, k);
        assert Short(u, accepted, k);
      }
    }
  }

  /** `gone` went, everything else stayed, and the diagnostics say so. */
  ghost predicate RollupsGone(s: State, u: State, gone: seq<RollupKey>, overflow: int, now: int) {
    && u.tables.diagnostics == NoteRollups(s.tables.diagnostics, gone, overflow, now)
    && (forall k :: Count(u.tables.rollups, k) == if k in gone then 0 else Count(s.tables.rollups, k))
    && (forall k | k in gone :: 0 < Count(s.tables.rollups, k))
    && (forall k :: 0 <= Count(s.tables.rollups, k))
  }

  lemma EvictRollupsGone(s: State, cap: int, now: int)
    requires Consistent(s) && s.memory.counts.Some? && s.memory.counts.value.rollup > cap && cap >= 1
    ensures var overflow := s.memory.counts.value.rollup - cap;
            RollupsGone(s, EvictRollups(s, cap, now), Oldest(s.tables.rollups, overflow), overflow, now)
  {
    hide Consistent, EvictRollups, NoteRollups, Oldest, Count, RowidsDistinct, Ages, Members;
    ConsistentRowids(s);
    ExactCounts(s);
    var overflow := s.memory.counts.value.rollup - cap;
    EvictedRollups(s, cap, now);
    OldestAreTheOldest(s.tables.rollups, overflow);
    CountsArePositive(s);
    forall k
      ensures Count(EvictRollups(s, cap, now).tables.rollups, k)
           == if k in Oldest(s.tables.rollups, overflow) then 0 else Count(s.tables.rollups, k)
    {
      EvictedCount(s, cap, now, k);
    }
  }

  lemma GoneAreExcused(s: State, u: State, accepted: seq<Submission>, gone: seq<RollupKey>, overflow: int, now: int, k: RollupKey)
    requires RollupsGone(s, u, gone, overflow, now)
    requires Count(s.tables.rollups, k) == Total(accepted, k) || Excused(s.tables.diagnostics, now, k)
    ensures Count(u.tables.rollups, k) == Total(accepted, k) || Excused(u.tables.diagnostics, now, k)
  {
    hide Count, Total, NoteRollups, LatestStart, CountKind;
    NotedMark(s.tables.diagnostics, gone, overflow, now, k.kind);
    LatestStartIsLatest(gone, k.kind);
  }

  lemma GoneKeepsRollupsSound(s: State, u: State, accepted: seq<Submission>, gone: seq<RollupKey>, overflow: int, now: int)
    requires RollupsSound(s, accepted, now) && RollupsGone(s, u, gone, overflow, now)
    ensures RollupsSound(u, accepted, now)
  {
    hide Count, Total, NoteRollups, MarkSound, Excused;
    forall k ensures Count(u.tables.rollups, k) == Total(accepted, k) || Excused(u.tables.diagnostics, now, k) {
      GoneAreExcused(s, u, accepted, gone, overflow, now, k);
    }
    forall kind: Kind ensures MarkSound(u, accepted, kind) {
      EvictingKeepsMark(s, u, accepted, gone, overflow, now, kind);
    }
  }

  lemma EvictRollupsKeepsRollupsSound(s: State, accepted: seq<Submission>, cap: int, now: int)
    requires Consistent(s) && RollupsSound(s, accepted, now) && s.memory.counts.Some? && s.memory.counts.value.rollup > cap && cap >= 1
    ensures RollupsSound(EvictRollups(s, cap, now), accepted, now)
  {
    hide Consistent, EvictRollups, Oldest, RollupsSound, RollupsGone, RowidsDistinct;
    ConsistentRowids(s);
    var overflow := s.memory.counts.value.rollup - cap;
    EvictRollupsGone(s, cap, now);
    GoneKeepsRollupsSound(s, EvictRollups(s, cap, now), accepted, Oldest(s.tables.rollups, overflow), overflow, now);
  }

  lemma EvictRollupsIsSound(s: State, accepted: seq<Submission>, cap: int, now: int)
    requires Sound(s, accepted, now) && s.memory.counts.Some? && cap >= 1 && s.memory.summary.None?
    ensures var e := EvictRollups(s, cap, now);
            Sound(e, accepted, now) && e.memory.counts.Some? && e.memory.summary.None?
            && |e.tables.rollups| <= cap && e.tables.rates == s.tables.rates
  {
    hide Consistent, RollupsSound, RatesSound, ReceiptsSound, NoteRollups, Oldest, RowidsDistinct;
    EvictRollupsKeepsConsistent(s, cap, now);
    ConsistentRowids(s);
    if s.memory.counts.value.rollup > cap {
      hide EvictRollups;
      var u := EvictRollups(s, cap, now);
      EvictRollupsKeepsRollupsSound(s, accepted, cap, now);
      EvictedRollups(s, cap, now);
      NotedMark(s.tables.diagnostics, Oldest(s.tables.rollups, s.memory.counts.value.rollup - cap),
                s.memory.counts.value.rollup - cap, now, Hour);
      SameRatesAreSound(s, u, accepted, now);
    }
  }

  lemma SameRatesAreSound(s: State, u: State, accepted: seq<Submission>, clock: int)
    requires RatesSound(s, accepted, clock) && ReceiptsSound(s, accepted, clock)
    requires u.tables.rates == s.tables.rates && u.tables.receipts == s.tables.receipts
    requires u.tables.diagnostics.rateMark == s.tables.diagnostics.rateMark
    requires u.tables.diagnostics.evictedRates == s.tables.diagnostics.evictedRates
    ensures RatesSound(u, accepted, clock) && ReceiptsSound(u, accepted, clock)
  {
    hide Seen, RateMarkSound;
    LostStays(s, u, accepted);
    forall sub | sub in accepted ensures Remembered(u, sub, clock) {
      assert Remembered(s, sub, clock);
    }
  }

  lemma {:induction false} LatestObservedIsLatest(rates: map<EventId, Observation>, events: seq<EventId>)
    requires forall e | e in events :: e in rates
    ensures forall e | e in events :: LatestObserved(rates, events).Some? && rates[e].observedAt <= LatestObserved(rates, events).value
    ensures LatestObserved(rates, events).Some? <==> events != []
    ensures events != [] ==> exists e | e in events :: rates[e].observedAt == LatestObserved(rates, events).value
  {
    if events != [] {
      var init, last := events[..|events| - 1], events[|events| - 1];
      LatestObservedIsLatest(rates, init);
      assert events == init + [last];
    }
  }

  lemma EvictRatesKeepsRatesSound(s: State, accepted: seq<Submission>, cap: int, now: int)
    requires Consistent(s) && RatesSound(s, accepted, now)
    requires s.memory.counts.Some? && s.memory.counts.value.rate > cap && cap >= 1
    ensures RatesSound(EvictRates(s, cap, now), accepted, now)
  {
    hide Consistent, EvictRates, OldestRates, Seen, LatestObserved, Indexed, RatesSound, RowidsDistinct;
    ConsistentRowids(s);
    ExactCounts(s);
    var overflow := s.memory.counts.value.rate - cap;
    var gone := OldestRates(s.tables.rates, overflow);
    EvictedRates(s, cap, now);
    OldestRatesAreDistinct(s.tables.rates, overflow);
    LatestObservedIsLatest(s.tables.rates, gone);
    GoneRatesAreSound(s, EvictRates(s, cap, now), accepted, gone, LatestObserved(s.tables.rates, gone), overflow, now);
  }

  lemma GoneRatesAreSound(s: State, u: State, accepted: seq<Submission>, gone: seq<EventId>, mark: Option<int>, overflow: int, now: int)
    requires RatesSound(s, accepted, now) && overflow > 0 && mark.Some?
    requires u.tables.rates == s.tables.rates - Members(gone)
    requires forall e | e in gone :: e in s.tables.rates && s.tables.rates[e].observedAt <= mark.value
    requires exists e | e in gone :: s.tables.rates[e].observedAt == mark.value
    requires u.tables.diagnostics == NoteRates(s.tables.diagnostics, mark, overflow, now)
    ensures RatesSound(u, accepted, now)
  {
    hide Seen, RateMarkSound;
    forall e | e in u.tables.rates ensures e in s.tables.rates && u.tables.rates[e] == s.tables.rates[e] {}
    GoneAreLost(s, u, accepted, gone, mark);
  }

  lemma GoneAreLost(s: State, u: State, accepted: seq<Submission>, gone: seq<EventId>, mark: Option<int>)
    requires RateMarkSound(s, accepted) && mark.Some? && u.tables.rates == s.tables.rates - Members(gone)
    requires forall e | e in s.tables.rates :: Seen(accepted, e, s.tables.rates[e])
    requires exists e | e in gone :: e in s.tables.rates && s.tables.rates[e].observedAt == mark.value
    requires u.tables.diagnostics.rateMark == Raise(s.tables.diagnostics.rateMark, mark)
    ensures RateMarkSound(u, accepted)
  {
    hide Seen;
    if u.tables.diagnostics.rateMark == mark {
      var e :| e in gone && e in s.tables.rates && s.tables.rates[e].observedAt == mark.value;
      assert Lost(u, accepted, e, s.tables.rates[e]);
    } else {
      var e: EventId, o: Observation :| o.observedAt == s.tables.diagnostics.rateMark.value && Lost(s, accepted, e, o);
      assert Lost(u, accepted, e, o);
    }
  }

  lemma SameReceiptsAreSound(s: State, u: State, accepted: seq<Submission>, clock: int)
    requires ReceiptsSound(s, accepted, clock) && u.tables.receipts == s.tables.receipts
    requires forall e | e in u.tables.rates :: e in s.tables.rates && u.tables.rates[e] == s.tables.rates[e]
    ensures ReceiptsSound(u, accepted, clock)
  {
    hide Remembered;
    forall sub | sub in accepted ensures Remembered(u, sub, clock) {
      SameReceiptsRemember(s, u, sub, clock);
    }
  }

  lemma SameReceiptsRemember(s: State, u: State, sub: Submission, clock: int)
    requires Remembered(s, sub, clock) && u.tables.receipts == s.tables.receipts
    ensures Remembered(u, sub, clock)
  {
  }

  lemma EvictRatesIsSound(s: State, accepted: seq<Submission>, cap: int, now: int)
    requires Sound(s, accepted, now) && s.memory.counts.Some? && cap >= 1 && s.memory.summary.None?
    ensures var e := EvictRates(s, cap, now);
            Sound(e, accepted, now) && e.memory.summary.None? && |e.tables.rates| <= cap && e.tables.rollups == s.tables.rollups
  {
    hide Consistent, RollupsSound, RatesSound, ReceiptsSound, NoteRates, OldestRates, LatestObserved, Indexed;
    EvictRatesKeepsConsistent(s, cap, now);
    ConsistentRowids(s);
    if s.memory.counts.value.rate > cap {
      hide EvictRates;
      var u := EvictRates(s, cap, now);
      EvictRatesKeepsRatesSound(s, accepted, cap, now);
      EvictedRates(s, cap, now);
      SameReceiptsAreSound(s, u, accepted, now);
      var overflow := s.memory.counts.value.rate - cap;
      NotedRates(s.tables.diagnostics, LatestObserved(s.tables.rates, OldestRates(s.tables.rates, overflow)), overflow, now);
      SameRollupsAreSound(s, u, accepted, now);
    }
  }

  lemma NotedRates(d: Diagnostics, mark: Option<int>, overflow: int, now: int)
    ensures var e := NoteRates(d, mark, overflow, now);
            && e.fiveMark == d.fiveMark && e.hourMark == d.hourMark
            && e.evictedFive == d.evictedFive && e.evictedHour == d.evictedHour
  {
  }

  lemma SameRollupsAreSound(s: State, u: State, accepted: seq<Submission>, clock: int)
    requires RollupsSound(s, accepted, clock) && u.tables.rollups == s.tables.rollups
    requires var d, e := s.tables.diagnostics, u.tables.diagnostics;
             && e.fiveMark == d.fiveMark && e.hourMark == d.hourMark
             && e.evictedFive == d.evictedFive && e.evictedHour == d.evictedHour
    ensures RollupsSound(u, accepted, clock)
  {
    hide Total, Count;
    forall kind: Kind ensures MarkSound(u, accepted, kind) {
      MarkStays(s, u, accepted, kind);
    }
  }
}

/** GitHub egress telemetry: rollup, rate limit and receipt tables with retention and row caps,
    the diagnostics that publish what was evicted, and the fields a store instance caches. */
module EgressTelemetry {
  import opened Ordering

  datatype Kind = FiveMinute | Hour

  /** A metric's closed dimensions; only completeness is looked at here. */
  datatype Dims = Dims(labels: string, complete: bool)

  datatype Metric = Metric(start: int, dims: Dims, count: int)

  datatype Observation = Observation(observedAt: int, details: string, complete: bool)

  datatype Submission = Submission(receipt: int, metrics: seq<Metric>, rates: seq<Observation>)

  datatype RollupKey = RollupKey(kind: Kind, start: int, dims: Dims)

  datatype Rollup = Rollup(rowid: int, count: int)

  /** An observation's identity: the receipt and the position inside its submission. */
  datatype EventId = EventId(receipt: int, index: int)

  datatype Diagnostics = Diagnostics(
    accepted: int,
    deduped: int,
    rejected: int,
    metrics: int,
    rates: int,
    incomplete: int,
    evictedRollups: int,
    evictedFive: int,
    evictedHour: int,
    evictedRates: int,
    fiveMark: Option<int>,
    hourMark: Option<int>,
    rateMark: Option<int>,
    rollupEvictedAt: Option<int>,
    rateEvictedAt: Option<int>,
    observedAt: Option<int>)

  datatype Tables = Tables(
    rollups: map<RollupKey, Rollup>,
    rates: map<EventId, Observation>,
    receipts: map<int, int>,
    diagnostics: Diagnostics)

  datatype Counts = Counts(rollup: int, rate: int)

  /** The cached summary: the window it was taken for and the rows it summed. */
  datatype Summary = Summary(start: int, rows: map<RollupKey, int>)

  datatype Memory = Memory(maintainedAt: Option<int>, counts: Option<Counts>, summary: Option<Summary>)

  datatype State = State(tables: Tables, memory: Memory)

  datatype Caps = Caps(rollup: int, rate: int)

  const FIVE_RETENTION_MS := 604800000
  const HOUR_RETENTION_MS := 2592000000
  const RATE_RETENTION_MS := 86400000
  const RECEIPT_RETENTION_MS := 604800000
  const MAINTENANCE_INTERVAL_MS := 300000
  const DAY_MS := 86400000
  const AHEAD_MS := 300000
  const MAX_METRICS := 128
  const MAX_RATES := 16
  const MAX_COUNT := 1000000
  const SUMMARY_WINDOW_MS := 21600000

  const UNUSED := Memory(None, None, None)
  const NO_TABLES := Tables(map[], map[], map[], Diagnostics(0, 0, 0, 0, 0, 0, 0, 0, 0, 0, None, None, None, None, None, None))

  function Width(kind: Kind): int { if kind.FiveMinute? then 300000 else 3600000 }

  function Aligned(kind: Kind, time: int): int { time / Width(kind) * Width(kind) }

  function Retention(kind: Kind): int { if kind.FiveMinute? then FIVE_RETENTION_MS else HOUR_RETENTION_MS }

  // ----- what is accepted -----

  predicate FreshMetric(m: Metric, now: int) {
    m.start % 300000 == 0 && now - DAY_MS <= m.start <= now + AHEAD_MS && 1 <= m.count <= MAX_COUNT
  }

  predicate FreshObservation(o: Observation, now: int) {
    now - DAY_MS <= o.observedAt <= now + AHEAD_MS
  }

  predicate Acceptable(s: Submission, now: int) {
    && |s.metrics| <= MAX_METRICS && |s.rates| <= MAX_RATES && (s.metrics != [] || s.rates != [])
    && (forall m | m in s.metrics :: FreshMetric(m, now))
    && (forall o | o in s.rates :: FreshObservation(o, now))
  }

  // ----- rollups -----

  function MaxRowid(rollups: map<RollupKey, Rollup>): (m: int)
    ensures forall k | k in rollups :: rollups[k].rowid <= m
  {
    var rowids := set k | k in rollups :: rollups[k].rowid;
    assert forall k | k in rollups :: rollups[k].rowid in rowids;
    if rowids == {} then 0 else GreatestOf(rowids)
  }

  function Upserted(rollups: map<RollupKey, Rollup>, k: RollupKey, n: int): map<RollupKey, Rollup> {
    rollups[k := if k in rollups then Rollup(rollups[k].rowid, rollups[k].count + n) else Rollup(MaxRowid(rollups) + 1, n)]
  }

  /** The store tells a new row by its count alone. */
  function Upsert(s: State, k: RollupKey, n: int): State {
    var rollups := Upserted(s.tables.rollups, k, n);
    var added := if rollups[k].count == n then 1 else 0;
    State(
      s.tables.(rollups := rollups),
      if s.memory.counts.Some? then
        s.memory.(counts := Some(s.memory.counts.value.(rollup := s.memory.counts.value.rollup + added)))
      else s.memory)
  }

  function FiveKey(m: Metric): RollupKey { RollupKey(FiveMinute, m.start, m.dims) }

  function HourKey(m: Metric): RollupKey { RollupKey(Hour, Aligned(Hour, m.start), m.dims) }

  function AddMetric(s: State, m: Metric): State {
    Upsert(Upsert(s, FiveKey(m), m.count), HourKey(m), m.count)
  }

  function AddMetrics(s: State, metrics: seq<Metric>): State
    decreases |metrics|
  {
    if metrics == [] then s else AddMetrics(AddMetric(s, metrics[0]), metrics[1..])
  }

  // ----- rate limits -----

  /** INSERT OR IGNORE. */
  function AddRate(s: State, id: EventId, o: Observation): State {
    if id in s.tables.rates then s
    else
      State(
        s.tables.(rates := s.tables.rates[id := o]),
        if s.memory.counts.Some? then
          s.memory.(counts := Some(s.memory.counts.value.(rate := s.memory.counts.value.rate + 1)))
        else s.memory)
  }

  function AddRates(s: State, receipt: int, rates: seq<Observation>, index: int): State
    decreases |rates|
  {
    if rates == [] then s
    else AddRates(AddRate(s, EventId(receipt, index), rates[0]), receipt, rates[1..], index + 1)
  }

  // ----- retention -----

  function Kept(rollups: map<RollupKey, Rollup>, now: int): map<RollupKey, Rollup> {
    map k | k in rollups && now - Retention(k.kind) <= k.start :: rollups[k]
  }

  function KeptRates(rates: map<EventId, Observation>, now: int): map<EventId, Observation> {
    map e | e in rates && now - RATE_RETENTION_MS <= rates[e].observedAt :: rates[e]
  }

  function KeptReceipts(receipts: map<int, int>, now: int): map<int, int> {
    map r | r in receipts && now - RECEIPT_RETENTION_MS <= receipts[r] :: receipts[r]
  }

  function Prune(s: State, now: int): State {
    var rollups := Kept(s.tables.rollups, now);
    var rates := KeptRates(s.tables.rates, now);
    State(
      s.tables.(rollups := rollups, rates := rates, receipts := KeptReceipts(s.tables.receipts, now)),
      if s.memory.counts.Some? then
        var c := s.memory.counts.value;
        s.memory.(counts := Some(Counts(c.rollup - (|s.tables.rollups| - |rollups|), c.rate - (|s.tables.rates| - |rates|))))
      else s.memory)
  }

  predicate MaintenanceDue(m: Memory, now: int) {
    m.maintainedAt.None? || now - m.maintainedAt.value >= MAINTENANCE_INTERVAL_MS
  }

  function Maintain(s: State, now: int): State {
    if !MaintenanceDue(s.memory, now) then s
    else
      var p := Prune(s, now);
      p.(memory := p.memory.(maintainedAt := Some(now), summary := None))
  }

  function EnsureCounts(s: State): State {
    if s.memory.counts.Some? then s
    else s.(memory := s.memory.(counts := Some(Counts(|s.tables.rollups|, |s.tables.rates|))))
  }

  // ----- row caps -----

  ghost predicate RowidsDistinct(rollups: map<RollupKey, Rollup>) {
    forall j, k | j in rollups && k in rollups && rollups[j].rowid == rollups[k].rowid :: j == k
  }

  function Ages(rollups: map<RollupKey, Rollup>): map<RollupKey, Rank> {
    map k | k in rollups :: Rank(k.start, rollups[k].rowid, 0)
  }

  function KindAges(rollups: map<RollupKey, Rollup>, kind: Kind): map<RollupKey, Rank> {
    map k | k in rollups && k.kind == kind :: Rank(k.start, rollups[k].rowid, 0)
  }

  lemma AgesAreDistinct(rollups: map<RollupKey, Rollup>)
    requires RowidsDistinct(rollups)
    ensures Distinct(Ages(rollups)) && (forall kind :: Distinct(KindAges(rollups, kind)))
  {
  }

  /** The oldest rows of each kind, merged. */
  function OldestOfEach(rollups: map<RollupKey, Rollup>, n: int): map<RollupKey, Rank>
    requires RowidsDistinct(rollups)
  {
    AgesAreDistinct(rollups);
    map k | k in Ages(rollups) && k in Limit(Sorted(KindAges(rollups, k.kind)), n) :: Ages(rollups)[k]
  }

  lemma OldestOfEachIsDistinct(rollups: map<RollupKey, Rollup>, n: int)
    requires RowidsDistinct(rollups)
    ensures Distinct(OldestOfEach(rollups, n))
  {
    hide Sorted, Limit;
    AgesAreDistinct(rollups);
  }

  function Oldest(rollups: map<RollupKey, Rollup>, n: int): seq<RollupKey>
    requires RowidsDistinct(rollups)
  {
    OldestOfEachIsDistinct(rollups, n);
    Limit(Sorted(OldestOfEach(rollups, n)), n)
  }

  /** The latest bucket start of some kind among the evicted rows. */
  function LatestStart(keys: seq<RollupKey>, kind: Kind): Option<int> {
    if keys == [] then None
    else
      var rest := LatestStart(keys[..|keys| - 1], kind);
      var k := keys[|keys| - 1];
      if k.kind != kind then rest else Some(if rest.Some? && rest.value > k.start then rest.value else k.start)
  }

  function CountKind(keys: seq<RollupKey>, kind: Kind): nat {
    if keys == [] then 0
    else CountKind(keys[..|keys| - 1], kind) + if keys[|keys| - 1].kind == kind then 1 else 0
  }

  function Raise(mark: Option<int>, other: Option<int>): Option<int> {
    if other.None? then mark else if mark.Some? && mark.value > other.value then mark else other
  }

  function NoteRollups(d: Diagnostics, gone: seq<RollupKey>, overflow: int, now: int): Diagnostics {
    d.(
    evictedRollups := d.evictedRollups + overflow,
    evictedFive := d.evictedFive + CountKind(gone, FiveMinute),
    evictedHour := d.evictedHour + CountKind(gone, Hour),
    rollupEvictedAt := Some(now),
    fiveMark := Raise(d.fiveMark, LatestStart(gone, FiveMinute)),
    hourMark := Raise(d.hourMark, LatestStart(gone, Hour)))
  }

  function EvictRollups(s: State, cap: int, now: int): State
    requires RowidsDistinct(s.tables.rollups) && s.memory.counts.Some?
  {
    var t := s.tables;
    var c := s.memory.counts.value;
    if c.rollup <= cap then s
    else
      var gone := Oldest(t.rollups, c.rollup - cap);
      State(
        Tables(t.rollups - Members(gone), t.rates, t.receipts, NoteRollups(t.diagnostics, gone, c.rollup - cap, now)),
        Memory(s.memory.maintainedAt, Some(Counts(cap, c.rate)), s.memory.summary))
  }

  /** Event identifiers are compared as text, so position 10 sorts before position 2. */
  function TextOrder(index: int): int {
    if index < 2 then index else if index < 10 then index + 6 else index - 8
  }

  ghost predicate Indexed(rates: map<EventId, Observation>) {
    forall e | e in rates :: 0 <= e.index < MAX_RATES
  }

  function RateAges(rates: map<EventId, Observation>): (ages: map<EventId, Rank>)
    requires Indexed(rates)
    ensures Distinct(ages)
  {
    map e | e in rates :: Rank(rates[e].observedAt, e.receipt, TextOrder(e.index))
  }

  function LatestObserved(rates: map<EventId, Observation>, events: seq<EventId>): Option<int>
    requires forall e | e in events :: e in rates
  {
    if events == [] then None
    else
      var rest := LatestObserved(rates, events[..|events| - 1]);
      var at := rates[events[|events| - 1]].observedAt;
      Some(if rest.Some? && rest.value > at then rest.value else at)
  }

  function OldestRates(rates: map<EventId, Observation>, n: int): (q: seq<EventId>)
    requires Indexed(rates)
    ensures forall e | e in q :: e in rates
  {
    hide Sorted;
    assert forall e | e in Limit(Sorted(RateAges(rates)), n) :: e in Sorted(RateAges(rates));
    Limit(Sorted(RateAges(rates)), n)
  }

  function NoteRates(d: Diagnostics, mark: Option<int>, overflow: int, now: int): Diagnostics {
    d.(evictedRates := d.evictedRates + overflow, rateEvictedAt := Some(now), rateMark := Raise(d.rateMark, mark))
  }

  function EvictRates(s: State, cap: int, now: int): State
    requires Indexed(s.tables.rates) && s.memory.counts.Some?
  {
    var t := s.tables;
    var c := s.memory.counts.value;
    if c.rate <= cap then s
    else
      var gone := OldestRates(t.rates, c.rate - cap);
      State(
        Tables(t.rollups, t.rates - Members(gone), t.receipts,
               NoteRates(t.diagnostics, LatestObserved(t.rates, gone), c.rate - cap, now)),
        Memory(s.memory.maintainedAt, Some(Counts(c.rollup, cap)), s.memory.summary))
  }

  // ----- the operations -----

  datatype Reply = Rejected | Deduped | Accepted

  datatype Outcome = Outcome(state: State, reply: Reply)

  function IncompleteMetrics(metrics: seq<Metric>): int {
    if metrics == [] then 0
    else IncompleteMetrics(metrics[..|metrics| - 1]) + if metrics[|metrics| - 1].dims.complete then 0 else metrics[|metrics| - 1].count
  }

  function IncompleteRates(rates: seq<Observation>): int {
    if rates == [] then 0
    else IncompleteRates(rates[..|rates| - 1]) + if rates[|rates| - 1].complete then 0 else 1
  }

  function CountMetrics(metrics: seq<Metric>): int {
    if metrics == [] then 0 else CountMetrics(metrics[..|metrics| - 1]) + metrics[|metrics| - 1].count
  }

  /** The rows of an accepted submission, before the caps are enforced. */
  function Recorded(s: State, sub: Submission, now: int): State {
    var m := EnsureCounts(Maintain(s, now));
    var open := m.(memory := m.memory.(summary := None));
    var added := AddRates(AddMetrics(open, sub.metrics), sub.receipt, sub.rates, 0);
    added.(tables := added.tables.(receipts := added.tables.receipts[sub.receipt := now]))
  }

  function Accounted(d: Diagnostics, sub: Submission, now: int): Diagnostics {
    d.(
    accepted := d.accepted + 1,
    metrics := d.metrics + CountMetrics(sub.metrics),
    rates := d.rates + |sub.rates|,
    incomplete := d.incomplete + IncompleteMetrics(sub.metrics) + IncompleteRates(sub.rates),
    observedAt := Some(now))
  }

  // ----- what the tables and the cached counts always satisfy -----

  ghost predicate CountsExact(s: State) {
    s.memory.counts.Some? ==> s.memory.counts.value == Counts(|s.tables.rollups|, |s.tables.rates|)
  }

  ghost predicate Consistent(s: State) {
    && RowidsDistinct(s.tables.rollups)
    && (forall k | k in s.tables.rollups :: s.tables.rollups[k].count >= 1)
    && Indexed(s.tables.rates)
    && CountsExact(s)
  }

  /** A row is new exactly when its count equals what was added, so the cached count stays exact. */
  lemma UpsertKeepsConsistent(s: State, k: RollupKey, n: int)
    requires Consistent(s) && n >= 1
    ensures Consistent(Upsert(s, k, n))
  {
    UpsertedRows(s.tables.rollups, k, n);
    UpsertedSize(s.tables.rollups, k, n);
    hide Upserted, RowidsDistinct;
  }

  lemma UpsertedRows(rollups: map<RollupKey, Rollup>, k: RollupKey, n: int)
    requires RowidsDistinct(rollups) && (forall j | j in rollups :: rollups[j].count >= 1) && n >= 1
    ensures RowidsDistinct(Upserted(rollups, k, n)) && (forall j | j in Upserted(rollups, k, n) :: Upserted(rollups, k, n)[j].count >= 1)
  {
    hide MaxRowid;
  }

  /** A row is new exactly when its count equals what was added. */
  lemma UpsertedSize(rollups: map<RollupKey, Rollup>, k: RollupKey, n: int)
    requires (forall j | j in rollups :: rollups[j].count >= 1) && n >= 1
    ensures var u := Upserted(rollups, k, n);
            k in u && |u| == |rollups| + (if u[k].count == n then 1 else 0)
  {
    hide MaxRowid;
    var u := Upserted(rollups, k, n);
    assert u.Keys == rollups.Keys + {k};
    assert |u| == |u.Keys| && |rollups| == |rollups.Keys|;
  }

  lemma {:induction false} AddMetricsKeepsConsistent(s: State, metrics: seq<Metric>)
    requires Consistent(s) && (forall m | m in metrics :: m.count >= 1)
    ensures Consistent(AddMetrics(s, metrics))
    ensures AddMetrics(s, metrics).memory.counts.Some? == s.memory.counts.Some?
    decreases |metrics|
  {
    hide Consistent;
    if metrics != [] {
      var m := metrics[0];
      UpsertKeepsConsistent(s, FiveKey(m), m.count);
      UpsertKeepsConsistent(Upsert(s, FiveKey(m), m.count), HourKey(m), m.count);
      AddMetricsKeepsConsistent(AddMetric(s, m), metrics[1..]);
    }
  }

  lemma AddRateKeepsConsistent(s: State, id: EventId, o: Observation)
    requires Consistent(s) && 0 <= id.index < MAX_RATES
    ensures Consistent(AddRate(s, id, o))
  {
    if id !in s.tables.rates {
      var rates := s.tables.rates[id := o];
      assert rates.Keys == s.tables.rates.Keys + {id};
      assert |rates| == |rates.Keys| && |s.tables.rates| == |s.tables.rates.Keys|;
    }
  }

  lemma {:induction false} AddRatesKeepsConsistent(s: State, receipt: int, rates: seq<Observation>, index: int)
    requires Consistent(s) && 0 <= index && index + |rates| <= MAX_RATES
    ensures Consistent(AddRates(s, receipt, rates, index))
    ensures AddRates(s, receipt, rates, index).memory.counts.Some? == s.memory.counts.Some?
    decreases |rates|
  {
    hide Consistent;
    if rates != [] {
      AddRateKeepsConsistent(s, EventId(receipt, index), rates[0]);
      AddRatesKeepsConsistent(AddRate(s, EventId(receipt, index), rates[0]), receipt, rates[1..], index + 1);
    }
  }

  lemma PruneKeepsConsistent(s: State, now: int)
    requires Consistent(s)
    ensures Consistent(Prune(s, now))
  {
  }

  lemma MaintainKeepsConsistent(s: State, now: int)
    requires Consistent(s)
    ensures Consistent(Maintain(s, now)) && Consistent(EnsureCounts(Maintain(s, now)))
  {
    hide Prune;
    PruneKeepsConsistent(s, now);
  }

  lemma RecordedIsConsistent(s: State, sub: Submission, now: int)
    requires Consistent(s) && Acceptable(sub, now)
    ensures Consistent(Recorded(s, sub, now)) && Recorded(s, sub, now).memory.counts.Some?
  {
    var m := EnsureCounts(Maintain(s, now));
    MaintainKeepsConsistent(s, now);
    var open := m.(memory := m.memory.(summary := None));
    assert Consistent(open);
    assert forall x | x in sub.metrics :: x.count >= 1;
    hide Maintain, EnsureCounts, AddMetrics, AddRates, Acceptable;
    AddMetricsKeepsConsistent(open, sub.metrics);
    assert |sub.rates| <= MAX_RATES by { AcceptableIsBounded(sub, now); }
    AddRatesKeepsConsistent(AddMetrics(open, sub.metrics), sub.receipt, sub.rates, 0);
  }

  lemma AcceptableIsBounded(sub: Submission, now: int)
    requires Acceptable(sub, now)
    ensures |sub.rates| <= MAX_RATES
  {
  }

  lemma FewerRollups(s: State, u: State, gone: seq<RollupKey>)
    requires Consistent(s) && s.memory.counts.Some?
    requires (forall k | k in gone :: k in s.tables.rollups) && forall i, j | 0 <= i < j < |gone| :: gone[i] != gone[j]
    requires u.tables.rollups == s.tables.rollups - Members(gone) && u.tables.rates == s.tables.rates
    requires u.memory.counts == Some(Counts(s.memory.counts.value.rollup - |gone|, s.memory.counts.value.rate))
    ensures Consistent(u)
  {
    Without(s.tables.rollups, gone);
    hide Members;
    assert forall k | k in u.tables.rollups :: k in s.tables.rollups && u.tables.rollups[k] == s.tables.rollups[k];
  }

  lemma EvictedRollups(s: State, cap: int, now: int)
    requires Consistent(s) && s.memory.counts.Some? && s.memory.counts.value.rollup > cap
    ensures var e := EvictRollups(s, cap, now);
            var gone := Oldest(s.tables.rollups, s.memory.counts.value.rollup - cap);
            && e.tables.rollups == s.tables.rollups - Members(gone)
            && e.tables.rates == s.tables.rates && e.tables.receipts == s.tables.receipts
            && e.tables.diagnostics == NoteRollups(s.tables.diagnostics, gone, s.memory.counts.value.rollup - cap, now)
            && e.memory == s.memory.(counts := Some(Counts(cap, s.memory.counts.value.rate)))
  {
    hide NoteRollups, Oldest, Members;
  }

  /** Cap eviction removes exactly the overflow, so the cached count is the cap. */
  lemma EvictRollupsKeepsConsistent(s: State, cap: int, now: int)
    requires Consistent(s) && s.memory.counts.Some? && cap >= 1
    ensures var e := EvictRollups(s, cap, now);
            Consistent(e) && e.memory.counts.Some? && |e.tables.rollups| <= cap && e.tables.rates == s.tables.rates
  {
    hide Consistent, NoteRollups, Oldest, RowidsDistinct, Indexed, Members, Ages;
    ExactCounts(s);
    ConsistentRowids(s);
    var overflow := s.memory.counts.value.rollup - cap;
    if overflow > 0 {
      hide EvictRollups;
      var e := EvictRollups(s, cap, now);
      var gone := Oldest(s.tables.rollups, overflow);
      EvictedRollups(s, cap, now);
      OldestAreTheOldest(s.tables.rollups, overflow);
      FewerRollups(s, e, gone);
      ExactCounts(e);
    }
  }

  lemma ConsistentRowids(s: State)
    requires Consistent(s)
    ensures RowidsDistinct(s.tables.rollups) && Indexed(s.tables.rates)
  {
  }

  lemma ExactCounts(s: State)
    requires Consistent(s) && s.memory.counts.Some?
    ensures s.memory.counts.value == Counts(|s.tables.rollups|, |s.tables.rates|)
  {
  }

  /** Taking the oldest of each kind and merging gives the oldest rows of all, each once. */
  lemma OldestAreTheOldest(rollups: map<RollupKey, Rollup>, n: int)
    requires RowidsDistinct(rollups) && 0 <= n <= |rollups|
    ensures Distinct(Ages(rollups)) && Oldest(rollups, n) == Limit(Sorted(Ages(rollups)), n)
    ensures |Oldest(rollups, n)| == n && (forall k | k in Oldest(rollups, n) :: k in rollups)
    ensures forall i, j | 0 <= i < j < n :: Oldest(rollups, n)[i] != Oldest(rollups, n)[j]
  {
    hide Sorted, RowidsDistinct, Ages, Limit, Distinct;
    AgesAreDistinct(rollups);
    MergedKindsAreTheOldest(rollups, n);
    AgesCoverRollups(rollups);
    FirstAreDistinct(Ages(rollups), n);
  }

  lemma AgesCoverRollups(rollups: map<RollupKey, Rollup>)
    ensures |Ages(rollups)| == |rollups| && forall k :: k in Ages(rollups) <==> k in rollups
  {
    assert Ages(rollups).Keys == rollups.Keys;
    assert |Ages(rollups)| == |Ages(rollups).Keys| && |rollups| == |rollups.Keys|;
  }

  lemma FirstAreDistinct<T(!new)>(ranks: map<T, Rank>, n: int)
    requires Distinct(ranks) && 0 <= n <= |ranks|
    ensures var q := Limit(Sorted(ranks), n);
            && |q| == n && (forall x | x in q :: x in ranks)
            && (forall i, j | 0 <= i < j < n :: q[i] != q[j])
  {
    hide Sorted, Distinct;
    var q := Limit(Sorted(ranks), n);
    forall x | x in q ensures x in ranks { assert x in Sorted(ranks); }
    forall i, j | 0 <= i < j < n ensures q[i] != q[j] {
      SortedAscends(ranks, i, j);
    }
  }

  lemma MergedKindsAreTheOldest(rollups: map<RollupKey, Rollup>, n: int)
    requires RowidsDistinct(rollups) && Distinct(Ages(rollups))
    ensures Oldest(rollups, n) == Limit(Sorted(Ages(rollups)), n)
  {
    AgesAreDistinct(rollups);
    OldestOfEachIsDistinct(rollups, n);
    hide Sorted, RowidsDistinct, Limit, Distinct, Among;
    var ages := Ages(rollups);
    forall k | k in Limit(Sorted(ages), n) ensures k in OldestOfEach(rollups, n) {
      LimitIsPrefix(Sorted(ages), n, k);
      KindIsAmong(rollups, k.kind);
      FirstOfAllIsFirstOfPart(KindAges(rollups, k.kind), ages, n, k);
    }
    EachIsAmong(rollups, n);
    LimitIgnoresTheRest(OldestOfEach(rollups, n), ages, n);
  }

  lemma KindIsAmong(rollups: map<RollupKey, Rollup>, kind: Kind)
    ensures Among(KindAges(rollups, kind), Ages(rollups))
  {
  }

  lemma EachIsAmong(rollups: map<RollupKey, Rollup>, n: int)
    requires RowidsDistinct(rollups)
    ensures Among(OldestOfEach(rollups, n), Ages(rollups))
  {
    hide Sorted, Limit, RowidsDistinct;
  }

  lemma LimitIsPrefix<T>(q: seq<T>, n: int, x: T)
    requires x in Limit(q, n)
    ensures x in q
  {
  }

  lemma Without<K, V>(m: map<K, V>, gone: seq<K>)
    requires (forall k | k in gone :: k in m) && forall i, j | 0 <= i < j < |gone| :: gone[i] != gone[j]
    ensures |m - Members(gone)| == |m| - |gone|
  {
    assert (m - Members(gone)).Keys == m.Keys - Members(gone);
    assert |m - Members(gone)| == |(m - Members(gone)).Keys|;
    DistinctMembers(gone);
    assert |m.Keys - Members(gone)| == |m.Keys| - |m.Keys * Members(gone)|;
    assert m.Keys * Members(gone) == Members(gone);
  }

  lemma FewerRates(s: State, u: State, gone: seq<EventId>)
    requires Consistent(s) && s.memory.counts.Some?
    requires (forall k | k in gone :: k in s.tables.rates) && forall i, j | 0 <= i < j < |gone| :: gone[i] != gone[j]
    requires u.tables.rates == s.tables.rates - Members(gone) && u.tables.rollups == s.tables.rollups
    requires u.memory.counts == Some(Counts(s.memory.counts.value.rollup, s.memory.counts.value.rate - |gone|))
    ensures Consistent(u)
  {
    Without(s.tables.rates, gone);
    hide Members;
    assert forall k | k in u.tables.rates :: k in s.tables.rates && u.tables.rates[k] == s.tables.rates[k];
  }

  lemma EvictedRates(s: State, cap: int, now: int)
    requires Consistent(s) && s.memory.counts.Some? && s.memory.counts.value.rate > cap
    ensures var e := EvictRates(s, cap, now);
            var gone := OldestRates(s.tables.rates, s.memory.counts.value.rate - cap);
            && e.tables.rates == s.tables.rates - Members(gone)
            && e.tables.rollups == s.tables.rollups && e.tables.receipts == s.tables.receipts
            && e.tables.diagnostics == NoteRates(s.tables.diagnostics, LatestObserved(s.tables.rates, gone), s.memory.counts.value.rate - cap, now)
            && e.memory == s.memory.(counts := Some(Counts(s.memory.counts.value.rollup, cap)))
  {
    hide NoteRates, OldestRates, Members, LatestObserved;
  }

  lemma EvictRatesKeepsConsistent(s: State, cap: int, now: int)
    requires Consistent(s) && s.memory.counts.Some? && cap >= 1
    ensures var e := EvictRates(s, cap, now);
            Consistent(e) && e.memory.counts.Some? && |e.tables.rates| <= cap && e.tables.rollups == s.tables.rollups
  {
    hide Consistent, NoteRates, OldestRates, LatestObserved, RowidsDistinct, Indexed, Members;
    ExactCounts(s);
    ConsistentRowids(s);
    if s.memory.counts.value.rate > cap {
      OverCapRates(s, cap, now);
    }
  }

  lemma OverCapRates(s: State, cap: int, now: int)
    requires Consistent(s) && s.memory.counts.Some? && cap >= 1 && s.memory.counts.value.rate > cap
    ensures var e := EvictRates(s, cap, now);
            Consistent(e) && e.memory.counts.Some? && |e.tables.rates| <= cap && e.tables.rollups == s.tables.rollups
  {
    hide *;
    ExactCounts(s);
    ConsistentRowids(s);
    var overflow := s.memory.counts.value.rate - cap;
    EvictedRates(s, cap, now);
    OldestRatesAreDistinct(s.tables.rates, overflow);
    FewerRates(s, EvictRates(s, cap, now), OldestRates(s.tables.rates, overflow));
    ExactCounts(EvictRates(s, cap, now));
  }

  lemma OldestRatesAreDistinct(rates: map<EventId, Observation>, n: int)
    requires Indexed(rates) && 0 <= n <= |rates|
    ensures OldestRates(rates, n) == Limit(Sorted(RateAges(rates)), n)
    ensures |OldestRates(rates, n)| == n
    ensures forall i, j | 0 <= i < j < n :: OldestRates(rates, n)[i] != OldestRates(rates, n)[j]
  {
    hide Sorted, Limit;
    assert RateAges(rates).Keys == rates.Keys;
    assert |RateAges(rates)| == |RateAges(rates).Keys|;
    FirstAreDistinct(RateAges(rates), n);
  }

  function Capped(s: State, caps: Caps, now: int): State
    requires Consistent(s) && s.memory.counts.Some? && caps.rollup >= 1
  {
    EvictRollupsKeepsConsistent(s, caps.rollup, now);
    EvictRates(EvictRollups(s, caps.rollup, now), caps.rate, now)
  }

  /** None is a payload that does not parse. */
  function Ingest(s: State, caps: Caps, value: Option<Submission>, now: int): Outcome
    requires Consistent(s) && caps.rollup >= 1 && caps.rate >= 1
  {
    var d := s.tables.diagnostics;
    if value.None? || !Acceptable(value.value, now) then
      Outcome(s.(tables := s.tables.(diagnostics := d.(rejected := d.rejected + 1, observedAt := Some(now)))), Rejected)
    else if value.value.receipt in s.tables.receipts then
      Outcome(s.(tables := s.tables.(diagnostics := d.(deduped := d.deduped + 1, observedAt := Some(now)))), Deduped)
    else
      RecordedIsConsistent(s, value.value, now);
      var capped := Capped(Recorded(s, value.value, now), caps, now);
      Outcome(capped.(tables := capped.tables.(diagnostics := Accounted(capped.tables.diagnostics, value.value, now))), Accepted)
  }

  function Window(rollups: map<RollupKey, Rollup>, kind: Kind, start: int): map<RollupKey, int> {
    map k | k in rollups && k.kind == kind && start <= k.start :: rollups[k].count
  }

  function Evicted(d: Diagnostics, kind: Kind): int { if kind.FiveMinute? then d.evictedFive else d.evictedHour }

  function Mark(d: Diagnostics, kind: Kind): Option<int> { if kind.FiveMinute? then d.fiveMark else d.hourMark }

  predicate RollupWindowComplete(d: Diagnostics, kind: Kind, start: int) {
    Evicted(d, kind) == 0 || (Mark(d, kind).Some? && 0 <= Mark(d, kind).value < start)
  }

  predicate RateWindowComplete(d: Diagnostics, start: int) {
    d.evictedRates == 0 || (d.rateMark.Some? && 0 <= d.rateMark.value < start)
  }

  /** What a query publishes: the rows of its window, and whether they are all there ever were. */
  datatype Report = Report(kind: Kind, start: int, rows: map<RollupKey, int>, rates: map<EventId, Observation>,
                           rateStart: int, rollupsComplete: bool, ratesComplete: bool)

  datatype Answer = Answer(state: State, report: Report)

  function RatesSince(rates: map<EventId, Observation>, start: int): map<EventId, Observation> {
    map e | e in rates && start <= rates[e].observedAt :: rates[e]
  }

  function PublicSummary(s: State, now: int): Answer {
    var m := Maintain(s, now);
    var start := Aligned(FiveMinute, now - SUMMARY_WINDOW_MS);
    var summary :=
      if m.memory.summary.Some? && m.memory.summary.value.start == start then m.memory.summary.value
      else Summary(start, Window(m.tables.rollups, FiveMinute, start));
    Answer(
      m.(memory := m.memory.(summary := Some(summary))),
      Report(FiveMinute, start, summary.rows, map[], now - SUMMARY_WINDOW_MS,
             RollupWindowComplete(m.tables.diagnostics, FiveMinute, start),
             RateWindowComplete(m.tables.diagnostics, now - SUMMARY_WINDOW_MS)))
  }

  /** A quarter of an hour, one hour, six hours, a day or a week. */
  predicate Supported(window: int) {
    window == 900000 || window == 3600000 || window == 21600000 || window == 86400000 || window == 604800000
  }

  function WindowKind(window: int): Kind { if window <= 21600000 then FiveMinute else Hour }

  function PublicObservability(s: State, window: int, now: int): Answer
    requires Supported(window)
  {
    var m := Maintain(s, now);
    var kind := WindowKind(window);
    var start := Aligned(kind, now - window);
    var d := m.tables.diagnostics;
    var rateStart := if now - window < now - RATE_RETENTION_MS then now - RATE_RETENTION_MS else now - window;
    Answer(
      m,
      Report(kind, start, Window(m.tables.rollups, kind, start), RatesSince(m.tables.rates, rateStart), now - window,
             RollupWindowComplete(d, kind, start),
             window <= RATE_RETENTION_MS && RateWindowComplete(d, now - window)))
  }
}

/** Direct command intake: an intake row, a watermark per source comment and a receipt per command
    version, kept in step; and the durable revision counter of each item. */
module CommandIntake {
  import opened Ordering

  /** One version of a command comment, identified by its content. */
  datatype Intake = Intake(version: string, key: string, updatedAt: int, body: string)

  datatype Stage = VerifyPending | EnqueuePending | EffectsPending

  datatype Record = Record(intake: Intake, stage: Stage, attempts: nat, next: int, admittedAt: int, verified: Option<string>)

  datatype Watermark = Watermark(at: int, version: string, body: string)

  datatype Outcome = Pending | Completed | Rejected | Superseded

  datatype Receipt = Receipt(key: string, outcome: Outcome, observedAt: int, detail: Option<string>)

  datatype Tables = Tables(
    intakes: map<string, Record>,
    watermarks: map<string, Watermark>,
    receipts: map<string, Receipt>,
    revisions: map<string, int>)

  const EMPTY := Tables(map[], map[], map[], map[])
  const RETRY_BASE_MS := 15000
  const RETRY_MAX_MS := 900000
  const RECEIPT_RETENTION_MS := 2592000000

  datatype Admission = Accepted(deduped: bool) | Refused(reason: string)

  datatype Admitting = Admitting(tables: Tables, admission: Admission)

  // ----- admission -----

  /** Every pending receipt of a comment, or all but one version's, is superseded. */
  function Supersede(receipts: map<string, Receipt>, key: string, except: Option<string>, now: int, detail: string): map<string, Receipt> {
    map v | v in receipts ::
      if receipts[v].key == key && receipts[v].outcome.Pending? && Some(v) != except
      then receipts[v].(outcome := Superseded, observedAt := now, detail := Some(detail)) else receipts[v]
  }

  function Without(intakes: map<string, Record>, key: string, except: Option<string>): map<string, Record> {
    map v | v in intakes && (intakes[v].intake.key != key || Some(v) == except) :: intakes[v]
  }

  /** A newer version moves the watermark; a version of the same time leaves it. */
  function Raised(t: Tables, i: Intake): Watermark {
    if i.key in t.watermarks && t.watermarks[i.key].at >= i.updatedAt then t.watermarks[i.key]
    else Watermark(i.updatedAt, i.version, i.body)
  }

  function Admit(t: Tables, i: Intake, now: int): Admitting {
    if i.version in t.receipts then
      var r := t.receipts[i.version];
      Admitting(t,
        if r.outcome.Rejected? || r.outcome.Superseded?
        then Refused(if r.detail.Some? && r.detail.value != "" then r.detail.value else if r.outcome.Rejected? then "rejected" else "superseded")
        else Accepted(true))
    else
      var known := i.key in t.watermarks;
      var same := known && t.watermarks[i.key].version == i.version && t.watermarks[i.key].at == i.updatedAt;
      if known && (t.watermarks[i.key].at > i.updatedAt || same) then
        Admitting(
          t.(receipts := t.receipts[i.version := Receipt(i.key, Rejected, now, Some(if same then "already_observed" else "older_comment_version"))]),
          Refused(if same then "semantic command version already observed" else "older comment version"))
      else
        var newer := known && t.watermarks[i.key].at < i.updatedAt;
        var receipts := if newer then Supersede(t.receipts, i.key, None, now, "newer_comment_version") else t.receipts;
        var intakes := if newer then Without(t.intakes, i.key, None) else t.intakes;
        Admitting(
          Tables(intakes[i.version := Record(i, VerifyPending, 0, now, now, None)],
                 t.watermarks[i.key := Raised(t, i)],
                 receipts[i.version := Receipt(i.key, Pending, now, None)],
                 t.revisions),
          Accepted(false))
  }

  // ----- processing -----

  predicate IsCurrent(t: Tables, r: Record) {
    && r.intake.key in t.watermarks
    && t.watermarks[r.intake.key].at == r.intake.updatedAt
    && (r.stage.VerifyPending? || t.watermarks[r.intake.key].version == r.intake.version)
  }

  datatype Marking = Marking(tables: Tables, ok: bool)

  /** The verified version takes over the watermark of its time; its siblings are superseded. */
  function MarkVerified(t: Tables, i: Intake, now: int): Marking {
    if i.key in t.watermarks && t.watermarks[i.key].at > i.updatedAt then Marking(t, false)
    else
      var watermarks :=
        if i.key in t.watermarks && t.watermarks[i.key].at == i.updatedAt
        then t.watermarks[i.key := Watermark(i.updatedAt, i.version, i.body)] else t.watermarks;
      Marking(
        Tables(Without(t.intakes, i.key, Some(i.version)), watermarks,
               Supersede(t.receipts, i.key, Some(i.version), now, "verified_sibling_version"), t.revisions),
        true)
  }

  /** Rows are updated only where they still are. */
  function Advance(t: Tables, version: string, stage: Stage, now: int, decision: string): Tables {
    if version !in t.intakes then t
    else t.(intakes := t.intakes[version := t.intakes[version].(stage := stage, attempts := 0, next := now, verified := Some(decision))])
  }

  function Finish(t: Tables, version: string, outcome: Outcome, now: int, detail: Option<string>): Tables {
    var receipts :=
      if version in t.receipts
      then t.receipts[version := t.receipts[version].(outcome := outcome, observedAt := now, detail := detail)] else t.receipts;
    t.(receipts := receipts, intakes := t.intakes - {version})
  }

  function Pow2(n: nat): nat { if n == 0 then 1 else 2 * Pow2(n - 1) }

  /** Fifteen seconds, doubled at most eight times, and at most a quarter of an hour. */
  function Delay(attempts: nat): int {
    Min(RETRY_MAX_MS, RETRY_BASE_MS * Pow2(Min(Max(0, attempts - 1), 8)))
  }

  function DeferredTo(attempts: nat, now: int, requested: Option<int>): int {
    var asked := if requested.Some? && requested.value != 0 then Min(requested.value, now + RETRY_MAX_MS) else 0;
    Max(now + Max(1000, Delay(attempts)), asked)
  }

  function Note(t: Tables, version: string, now: int, detail: string): map<string, Receipt> {
    if version in t.receipts && t.receipts[version].outcome.Pending?
    then t.receipts[version := t.receipts[version].(observedAt := now, detail := Some(detail))] else t.receipts
  }

  function Defer(t: Tables, version: string, now: int, detail: string, requested: Option<int>, increment: bool): Tables {
    var receipts := Note(t, version, now, detail);
    if version !in t.intakes then t.(receipts := receipts)
    else
      var r := t.intakes[version];
      var attempts := if increment then r.attempts + 1 else r.attempts;
      t.(receipts := receipts, intakes := t.intakes[version := r.(attempts := attempts, next := DeferredTo(attempts, now, requested))])
  }

  function RetryVerification(t: Tables, version: string, now: int, detail: string): Tables {
    var receipts := Note(t, version, now, detail);
    if version !in t.intakes then t.(receipts := receipts)
    else
      var r := t.intakes[version];
      t.(receipts := receipts,
         intakes := t.intakes[version := r.(stage := VerifyPending, attempts := r.attempts + 1, next := now + Delay(r.attempts + 1), verified := None)])
  }

  function PruneTerminal(t: Tables, now: int): Tables {
    t.(receipts := map v | v in t.receipts && !(!t.receipts[v].outcome.Pending? && t.receipts[v].observedAt <= now - RECEIPT_RETENTION_MS) :: t.receipts[v])
  }

  // ----- item revisions -----

  function MaxOf(q: seq<int>, floor: int): int {
    if q == [] then floor else Max(q[0], MaxOf(q[1..], floor))
  }

  function LastRevision(t: Tables, item: string): int { if item in t.revisions then t.revisions[item] else 0 }

  function Allocate(t: Tables, item: string, minimum: int, retained: seq<int>): (r: int) {
    Max(LastRevision(t, item), MaxOf(retained, Max(0, minimum - 1))) + 1
  }

  // ----- one step -----

  /** `Verified` is a successful verification: the mark and the advance run without an interruption.
      `Enqueued` advances a row that passed it; one processor runs at a time. */
  datatype Event =
    | Arrived(intake: Intake, now: int)
    | Verified(intake: Intake, now: int, decision: string)
    | Enqueued(version: string, now: int, decision: string)
    | Finished(version: string, outcome: Outcome, now: int, detail: Option<string>)
    | Deferred(version: string, now: int, reason: string, requested: Option<int>, increment: bool)
    | Retried(version: string, now: int, reason: string)
    | PrunedReceipts(now: int)
    | Allocated(item: string, minimum: int, retained: seq<int>)

  predicate Enabled(t: Tables, ev: Event) {
    match ev
    case Enqueued(version, _, _) => version in t.intakes ==> !t.intakes[version].stage.VerifyPending?
    case Finished(_, outcome, _, _) => !outcome.Pending?
    case _ => true
  }

  function Step(t: Tables, ev: Event): Tables {
    match ev
    case Arrived(i, now) => Admit(t, i, now).tables
    case Verified(i, now, decision) =>
      var m := MarkVerified(t, i, now);
      if m.ok then Advance(m.tables, i.version, EnqueuePending, now, decision)
      else Finish(t, i.version, Superseded, now, Some("newer_comment_version"))
    case Enqueued(version, now, decision) => Advance(t, version, EffectsPending, now, decision)
    case Finished(version, outcome, now, detail) => Finish(t, version, outcome, now, detail)
    case Deferred(version, now, detail, requested, increment) => Defer(t, version, now, detail, requested, increment)
    case Retried(version, now, detail) => RetryVerification(t, version, now, detail)
    case PrunedReceipts(now) => PruneTerminal(t, now)
    case Allocated(item, minimum, retained) => t.(revisions := t.revisions[item := Allocate(t, item, minimum, retained)])
  }

  // ----- the invariant -----

  /** An intake row exists exactly while its receipt is pending, and the two name the same comment. */
  ghost predicate InStep(t: Tables) {
    && (forall v :: v in t.intakes <==> v in t.receipts && t.receipts[v].outcome.Pending?)
    && (forall v | v in t.intakes :: t.intakes[v].intake.version == v && t.receipts[v].key == t.intakes[v].intake.key)
  }

  /** Every row carries exactly its comment's watermark time, and only the watermark's own version
      is past verification. */
  ghost predicate OnWatermark(t: Tables) {
    forall v | v in t.intakes ::
      var i := t.intakes[v].intake;
      && i.key in t.watermarks && t.watermarks[i.key].at == i.updatedAt
      && (!t.intakes[v].stage.VerifyPending? ==> t.watermarks[i.key].version == v)
  }

  ghost predicate Inv(t: Tables) { InStep(t) && OnWatermark(t) }

  /** A version always belongs to one comment and one source time: it is their digest. */
  ghost predicate SameVersionSameSource(t: Tables, i: Intake) {
    && (i.version in t.intakes ==> t.intakes[i.version].intake == i)
    && (i.version in t.receipts ==> t.receipts[i.version].key == i.key)
  }

  lemma EmptyIsSound()
    ensures Inv(EMPTY)
  {
  }

  lemma AdmitKeeps(t: Tables, i: Intake, now: int)
    requires Inv(t)
    ensures Inv(Admit(t, i, now).tables)
  {
  }

  lemma MarkKeeps(t: Tables, i: Intake, now: int)
    requires Inv(t) && SameVersionSameSource(t, i) && MarkVerified(t, i, now).ok
    ensures var u := MarkVerified(t, i, now).tables;
            Inv(u) && (i.version in u.intakes ==> u.watermarks[u.intakes[i.version].intake.key].version == i.version)
  {
    var u := MarkVerified(t, i, now).tables;
    forall v | v in u.intakes ensures v in t.intakes && u.intakes[v] == t.intakes[v] {}
    assert InStep(u) by { MarkKeepsInStep(t, i, now); }
    hide InStep, Supersede;
  }

  lemma MarkKeepsInStep(t: Tables, i: Intake, now: int)
    requires InStep(t) && MarkVerified(t, i, now).ok
    ensures InStep(MarkVerified(t, i, now).tables)
  {
  }

  lemma VerifiedKeeps(t: Tables, i: Intake, now: int, decision: string)
    requires Inv(t) && SameVersionSameSource(t, i)
    ensures Inv(Step(t, Verified(i, now, decision)))
  {
    hide Inv, MarkVerified, Advance, Finish, SameVersionSameSource;
    var m := MarkVerified(t, i, now);
    if m.ok {
      MarkKeeps(t, i, now);
      AdvanceKeeps(m.tables, i.version, EnqueuePending, now, decision);
    } else {
      FinishKeeps(t, i.version, Superseded, now, Some("newer_comment_version"));
    }
  }

  lemma AdvanceKeeps(t: Tables, version: string, stage: Stage, now: int, decision: string)
    requires Inv(t) && (version in t.intakes ==> t.watermarks[t.intakes[version].intake.key].version == version)
    ensures Inv(Advance(t, version, stage, now, decision))
  {
  }

  lemma FinishKeeps(t: Tables, version: string, outcome: Outcome, now: int, detail: Option<string>)
    requires Inv(t) && !outcome.Pending?
    ensures Inv(Finish(t, version, outcome, now, detail))
  {
  }

  lemma DeferKeeps(t: Tables, version: string, now: int, detail: string, requested: Option<int>, increment: bool)
    requires Inv(t)
    ensures Inv(Defer(t, version, now, detail, requested, increment))
    ensures Inv(RetryVerification(t, version, now, detail))
  {
    hide Delay, DeferredTo;
  }

  lemma PruneKeeps(t: Tables, now: int)
    requires Inv(t)
    ensures Inv(PruneTerminal(t, now))
  {
  }

  lemma PastVerification(t: Tables, version: string)
    requires Inv(t) && version in t.intakes && !t.intakes[version].stage.VerifyPending?
    ensures t.intakes[version].intake.key in t.watermarks && t.watermarks[t.intakes[version].intake.key].version == version
  {
  }

  lemma RevisionsAreApart(t: Tables, revisions: map<string, int>)
    requires Inv(t)
    ensures Inv(t.(revisions := revisions))
  {
  }

  lemma StepKeeps(t: Tables, ev: Event)
    requires Inv(t) && Enabled(t, ev) && (ev.Verified? ==> SameVersionSameSource(t, ev.intake))
    ensures Inv(Step(t, ev))
  {
    hide Inv, Admit, MarkVerified, Advance, Finish, Defer, RetryVerification, PruneTerminal, Allocate;
    match ev
    case Arrived(i, now) => AdmitKeeps(t, i, now);
    case Verified(i, now, decision) => VerifiedKeeps(t, i, now, decision);
    case Enqueued(version, now, decision) =>
      if version in t.intakes {
        PastVerification(t, version);
        AdvanceKeeps(t, version, EffectsPending, now, decision);
      } else {
        NothingToAdvance(t, version, now, decision);
      }
    case Finished(version, outcome, now, detail) => FinishKeeps(t, version, outcome, now, detail);
    case Deferred(version, now, reason, requested, increment) => DeferKeeps(t, version, now, reason, requested, increment);
    case Retried(version, now, reason) => DeferKeeps(t, version, now, reason, None, true);
    case PrunedReceipts(now) => PruneKeeps(t, now);
    case Allocated(item, minimum, retained) => RevisionsAreApart(t, t.revisions[item := Allocate(t, item, minimum, retained)]);
  }

  lemma NothingToAdvance(t: Tables, version: string, now: int, decision: string)
    requires version !in t.intakes
    ensures Advance(t, version, EffectsPending, now, decision) == t
  {
  }

  ghost predicate WatermarksRise(a: Tables, b: Tables) {
    forall k | k in a.watermarks :: k in b.watermarks && a.watermarks[k].at <= b.watermarks[k].at
  }

  /** Watermark times never fall, and a receipt disappears only when it is final and out of retention. */
  lemma StepAdvances(t: Tables, ev: Event, v: string)
    requires Inv(t) && Enabled(t, ev)
    ensures WatermarksRise(t, Step(t, ev))
    ensures v in t.receipts && v !in Step(t, ev).receipts ==>
              ev.PrunedReceipts? && !t.receipts[v].outcome.Pending? && t.receipts[v].observedAt <= ev.now - RECEIPT_RETENTION_MS
  {
    hide Delay, DeferredTo, Allocate, InStep, OnWatermark;
  }

  /** What a verdict makes of a receipt. */
  function Verdict(r: Receipt, outcome: Outcome, now: int, detail: Option<string>): Receipt {
    r.(outcome := outcome, observedAt := now, detail := detail)
  }

  /** A final receipt changes exactly when its own version is finished, or is verified although its
      comment has moved on, with a verdict that differs from the one recorded. */
  lemma FinalOutcomesChangeExactlyWhen(t: Tables, ev: Event, v: string)
    requires Enabled(t, ev) && v in t.receipts && !t.receipts[v].outcome.Pending? && v in Step(t, ev).receipts
    ensures Step(t, ev).receipts[v] != t.receipts[v] <==>
              || (ev.Finished? && ev.version == v && Verdict(t.receipts[v], ev.outcome, ev.now, ev.detail) != t.receipts[v])
              || (ev.Verified? && ev.intake.version == v
                  && ev.intake.key in t.watermarks && t.watermarks[ev.intake.key].at > ev.intake.updatedAt
                  && Verdict(t.receipts[v], Superseded, ev.now, Some("newer_comment_version")) != t.receipts[v])
  {
    hide Delay, DeferredTo, Allocate;
  }

  /** A command version arrives, a newer one supersedes it, and finishing it afterwards turns its
      superseded receipt into a completed one. */
  lemma SupersededCanComplete() returns (h: seq<Tables>, evs: seq<Event>)
    ensures Run(h, evs) && |h| == 4
    ensures "old" in h[2].receipts && h[2].receipts["old"].outcome.Superseded? && "old" !in h[2].intakes
    ensures "old" in h[3].receipts && h[3].receipts["old"].outcome.Completed?
  {
    var old1, new1 := Intake("old", "comment", 1, "a"), Intake("new", "comment", 2, "b");
    var t1 := Admit(EMPTY, old1, 1).tables;
    var t2 := Admit(t1, new1, 2).tables;
    h := [EMPTY, t1, t2, Finish(t2, "old", Completed, 3, None)];
    evs := [Arrived(old1, 1), Arrived(new1, 2), Finished("old", Completed, 3, None)];
    assert "old"[0] != "new"[0];
  }

  /** Of the rows of one comment at most one is past verification, and that one is current. */
  lemma OneVersionPastVerification(t: Tables, v: string, w: string)
    requires Inv(t) && v in t.intakes && w in t.intakes && t.intakes[v].intake.key == t.intakes[w].intake.key
    ensures IsCurrent(t, t.intakes[v])
    ensures !t.intakes[v].stage.VerifyPending? && !t.intakes[w].stage.VerifyPending? ==> v == w
    ensures t.intakes[v].intake.updatedAt == t.intakes[w].intake.updatedAt
  {
  }

  /** Verification leaves its version alone among the pending versions of its comment. */
  lemma VerifiedStandsAlone(t: Tables, i: Intake, now: int, decision: string, v: string)
    requires Inv(t) && SameVersionSameSource(t, i)
    ensures var u := Step(t, Verified(i, now, decision));
            v in u.intakes && u.intakes[v].intake.key == i.key && MarkVerified(t, i, now).ok ==> v == i.version && u.intakes[v].stage.EnqueuePending?
  {
  }

  // ----- runs -----

  /** Versions are digests of their source: a version met twice is the same intake. */
  ghost predicate Digests(evs: seq<Event>) {
    forall i, j | 0 <= i < |evs| && 0 <= j < |evs| && IntakeOf(evs[i]).Some? && IntakeOf(evs[j]).Some?
                  && IntakeOf(evs[i]).value.version == IntakeOf(evs[j]).value.version :: IntakeOf(evs[i]) == IntakeOf(evs[j])
  }

  function IntakeOf(ev: Event): Option<Intake> {
    if ev.Arrived? || ev.Verified? then Some(ev.intake) else None
  }

  ghost predicate Run(h: seq<Tables>, evs: seq<Event>) {
    && |h| == |evs| + 1 && h[0] == EMPTY && Digests(evs)
    && (forall i | 0 <= i < |evs| :: Enabled(h[i], evs[i]) && h[i + 1] == Step(h[i], evs[i]))
  }

  /** Every row and receipt comes from an intake that arrived. */
  ghost predicate FromArrivals(t: Tables, evs: seq<Event>) {
    && (forall v | v in t.receipts :: exists ev | ev in evs && ev.Arrived? :: ev.intake.version == v && ev.intake.key == t.receipts[v].key)
    && (forall v | v in t.intakes :: exists ev | ev in evs && ev.Arrived? :: ev.intake == t.intakes[v].intake && ev.intake.version == v)
  }

  lemma FromMoreArrivals(t: Tables, p: seq<Event>, ev: Event)
    requires FromArrivals(t, p)
    ensures FromArrivals(t, p + [ev])
  {
    forall v | v in t.receipts
      ensures exists e | e in p + [ev] && e.Arrived? :: e.intake.version == v && e.intake.key == t.receipts[v].key
    {
      var e :| e in p && e.Arrived? && e.intake.version == v && e.intake.key == t.receipts[v].key;
      assert e in p + [ev];
    }
    forall v | v in t.intakes ensures exists e | e in p + [ev] && e.Arrived? :: e.intake == t.intakes[v].intake && e.intake.version == v {
      var e :| e in p && e.Arrived? && e.intake == t.intakes[v].intake && e.intake.version == v;
      assert e in p + [ev];
    }
  }

  /** Rows and receipts are those there were, under the same comments, and what arrived. */
  ghost predicate AddsOnly(t: Tables, u: Tables, arrived: Option<Intake>) {
    && (forall v | v in u.receipts :: (v in t.receipts && u.receipts[v].key == t.receipts[v].key)
          || (arrived.Some? && v == arrived.value.version && u.receipts[v].key == arrived.value.key))
    && (forall v | v in u.intakes :: (v in t.intakes && u.intakes[v].intake == t.intakes[v].intake)
          || (arrived.Some? && v == arrived.value.version && u.intakes[v].intake == arrived.value))
  }

  lemma AdmitAddsOnly(t: Tables, i: Intake, now: int)
    ensures AddsOnly(t, Admit(t, i, now).tables, Some(i))
  {
  }

  lemma VerifiedAddsNothing(t: Tables, i: Intake, now: int, decision: string)
    ensures AddsOnly(t, Step(t, Verified(i, now, decision)), None)
  {
  }

  /** A step adds no row or receipt but the one it admits, and changes no comment. */
  lemma StepAddsOnlyArrivals(t: Tables, ev: Event)
    ensures AddsOnly(t, Step(t, ev), if ev.Arrived? then Some(ev.intake) else None)
  {
    hide Delay, DeferredTo, Allocate, Admit, MarkVerified;
    match ev
    case Arrived(i, now) => AdmitAddsOnly(t, i, now);
    case Verified(i, now, decision) => VerifiedAddsNothing(t, i, now, decision);
    case _ =>
  }

  lemma StepKeepsArrivals(t: Tables, p: seq<Event>, ev: Event)
    requires FromArrivals(t, p)
    ensures FromArrivals(Step(t, ev), p + [ev])
  {
    hide Step;
    FromMoreArrivals(t, p, ev);
    StepAddsOnlyArrivals(t, ev);
    assert ev in p + [ev];
  }

  /** In every state of every run the three tables are in step. */
  lemma {:induction false} RunKeeps(h: seq<Tables>, evs: seq<Event>, n: nat)
    requires Run(h, evs) && n <= |evs|
    ensures Inv(h[n]) && FromArrivals(h[n], evs[..n])
    decreases n
  {
    hide Inv, Step, FromArrivals, Enabled;
    if n == 0 {
      EmptyIsSound();
      assert FromArrivals(h[0], evs[..0]) by { NothingArrived(evs[..0]); }
    } else {
      RunKeeps(h, evs, n - 1);
      var ev := evs[n - 1];
      assert evs[..n] == evs[..n - 1] + [ev];
      StepKeepsArrivals(h[n - 1], evs[..n - 1], ev);
      if ev.Verified? {
        ArrivalsAreSame(h[n - 1], evs, n - 1);
      }
      StepKeeps(h[n - 1], ev);
    }
  }

  lemma NothingArrived(evs: seq<Event>)
    ensures FromArrivals(EMPTY, evs)
  {
  }

  lemma ArrivalsAreSame(t: Tables, evs: seq<Event>, n: nat)
    requires n < |evs| && Digests(evs) && evs[n].Verified? && FromArrivals(t, evs[..n])
    ensures SameVersionSameSource(t, evs[n].intake)
  {
    var i := evs[n].intake;
    if i.version in t.intakes {
      var e :| e in evs[..n] && e.Arrived? && e.intake == t.intakes[i.version].intake && e.intake.version == i.version;
      var k :| 0 <= k < n && evs[..n][k] == e;
      assert IntakeOf(evs[k]) == IntakeOf(evs[n]);
    }
    if i.version in t.receipts {
      var e :| e in evs[..n] && e.Arrived? && e.intake.version == i.version && e.intake.key == t.receipts[i.version].key;
      var k :| 0 <= k < n && evs[..n][k] == e;
      assert IntakeOf(evs[k]) == IntakeOf(evs[n]);
    }
  }

  // ----- retries and revisions -----

  lemma Pow2Grows(n: nat)
    ensures Pow2(n) >= 1
  {
  }

  /** A deferral lies at least fifteen seconds and at most a quarter of an hour ahead. */
  lemma DeferralIsBounded(attempts: nat, now: int, requested: Option<int>)
    requires now >= 0
    ensures now + RETRY_BASE_MS <= DeferredTo(attempts, now, requested) <= now + RETRY_MAX_MS
    ensures RETRY_BASE_MS <= Delay(attempts) <= RETRY_MAX_MS
  {
    Pow2Grows(Min(Max(0, attempts - 1), 8));
  }

  lemma {:induction false} MaxOfIsAbove(q: seq<int>, floor: int)
    ensures MaxOf(q, floor) >= floor && forall x | x in q :: MaxOf(q, floor) >= x
  {
    if q != [] {
      MaxOfIsAbove(q[1..], floor);
      assert forall x | x in q :: x == q[0] || x in q[1..];
    }
  }

  /** An allocated revision is at least the minimum and above every retained revision. */
  lemma AllocationIsAbove(t: Tables, item: string, minimum: int, retained: seq<int>)
    ensures var r := Allocate(t, item, minimum, retained);
            r >= minimum && r >= 1 && r > LastRevision(t, item) && forall x | x in retained :: r > x
  {
    MaxOfIsAbove(retained, Max(0, minimum - 1));
  }

  lemma {:induction false} RevisionsNeverFall(h: seq<Tables>, evs: seq<Event>, i: nat, j: nat, item: string)
    requires Run(h, evs) && i <= j < |h|
    ensures LastRevision(h[i], item) <= LastRevision(h[j], item)
    decreases j
  {
    hide Step, Digests, Enabled, Allocate;
    if i < j {
      RevisionsNeverFall(h, evs, i, j - 1, item);
      StepKeepsRevisions(h[j - 1], evs[j - 1], item);
    }
  }

  lemma StepKeepsRevisions(t: Tables, ev: Event, item: string)
    ensures LastRevision(Step(t, ev), item) >= LastRevision(t, item)
    ensures ev.Allocated? && ev.item == item ==> LastRevision(Step(t, ev), item) == Allocate(t, item, ev.minimum, ev.retained)
  {
    hide Allocate, Delay, DeferredTo;
    if ev.Allocated? { AllocationIsAbove(t, item, ev.minimum, ev.retained); }
  }

  /** Over a run no revision of an item is allocated twice: each is above all before it. */
  lemma AllocationsRise(h: seq<Tables>, evs: seq<Event>, i: nat, j: nat)
    requires Run(h, evs) && i < j < |evs| && evs[i].Allocated? && evs[j].Allocated? && evs[i].item == evs[j].item
    ensures Allocate(h[i], evs[i].item, evs[i].minimum, evs[i].retained) < Allocate(h[j], evs[j].item, evs[j].minimum, evs[j].retained)
  {
    hide Step, Digests, Enabled, Allocate;
    StepKeepsRevisions(h[i], evs[i], evs[i].item);
    RevisionsNeverFall(h, evs, i + 1, j, evs[i].item);
    AllocationIsAbove(h[j], evs[j].item, evs[j].minimum, evs[j].retained);
  }

  // ----- the verdict on an arrival -----

  /** A version is newly admitted iff it has no receipt and its comment has no watermark, an older
      one, or one of the same time that another version holds; nothing else writes an intake. */
  lemma AdmittedExactlyWhen(t: Tables, i: Intake, now: int)
    ensures var a := Admit(t, i, now);
            && (a.admission == Accepted(false) <==>
                  i.version !in t.receipts
                  && (i.key in t.watermarks ==>
                        t.watermarks[i.key].at < i.updatedAt
                        || (t.watermarks[i.key].at == i.updatedAt && t.watermarks[i.key].version != i.version)))
            && (a.admission == Accepted(false) ==>
                  i.version in a.tables.intakes && a.tables.intakes[i.version] == Record(i, VerifyPending, 0, now, now, None)
                  && i.key in a.tables.watermarks && a.tables.watermarks[i.key].at == i.updatedAt)
            && (a.admission != Accepted(false) ==> a.tables.intakes == t.intakes && a.tables.watermarks == t.watermarks)
  {
    hide Supersede;
  }

  /** A newer version leaves its comment with no other row, and every pending receipt of an older one
      superseded; a version of the same time leaves them alone. */
  lemma NewerVersionsSupersede(t: Tables, i: Intake, now: int, v: string)
    requires Inv(t) && Admit(t, i, now).admission == Accepted(false) && v in t.intakes && v != i.version
    ensures var u := Admit(t, i, now).tables;
            if t.intakes[v].intake.key == i.key && t.intakes[v].intake.updatedAt < i.updatedAt
            then v !in u.intakes && v in u.receipts && u.receipts[v].outcome.Superseded?
            else v in u.intakes && u.intakes[v] == t.intakes[v] && v in u.receipts && u.receipts[v] == t.receipts[v]
  {
  }
}

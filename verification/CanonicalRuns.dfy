/** Whole runs of the canonical store: any interleaving of its transactions, with bodies prepared
    and migration passes scanned in any earlier state. */
module CanonicalRuns {
  import opened Ordering
  import opened CanonicalTables
  import opened CanonicalTransactions
  import opened CanonicalInvariant
  import opened CanonicalEvolution
  import opened CanonicalAcceptance
  import opened CanonicalFencing
  import opened CanonicalMigration
  import opened CanonicalFrontier
  import opened CanonicalMaintenance

  /** What a step may start from, given the states so far: validated input, bodies stored before,
      and a pass that was scanned in some earlier state and whose bodies are stored. */
  ghost predicate Enabled(history: seq<Db>, ev: Event)
    requires history != []
  {
    var db := history[|history| - 1];
    match ev
    case Accept(plan, _, prepared) => ValidPlan(plan) && prepared <= db.bucket
    case Move(m, _, prepared) => ValidMutation(m) && prepared <= db.bucket
    case Commit(pass, _) => PassBodies(pass) <= db.bucket && exists a | a in history :: ScannedIn(a, pass)
    case Retire(tuples, _, prepared) => prepared <= db.bucket && forall t, op | t in tuples && op in t.ops :: OpFits(op)
    case _ => true
  }

  ghost predicate ScannedIn(a: Db, pass: Pass) {
    RowidsDistinct(a.v1) && PreparePass(a) == Some(pass)
  }

  ghost predicate Run(h: seq<Db>, evs: seq<Event>) {
    && |h| == |evs| + 1
    && (forall i | 0 <= i < |evs| :: Enabled(h[..i + 1], evs[i]) && h[i + 1] == Step(h[i], evs[i]))
  }

  /** Every step kind keeps the invariant and undoes nothing. */
  lemma StepKeeps(history: seq<Db>, ev: Event)
    requires history != []
    requires var db := history[|history| - 1];
             Inv(db) && Enabled(history, ev) && forall a | a in history :: Evolves(a, db)
    ensures var db := history[|history| - 1];
            Inv(Step(db, ev)) && Evolves(db, Step(db, ev))
  {
    hide Inv, Evolves, ValidPlan, ValidMutation, AcceptPlan, MoveTuple, Activate, CommitPass, PublishCommits, RetireAll,
      DropShadows, Prune, Remember, PreparePass, PassBodies, OpFits, RowidsDistinct;
    var db := history[|history| - 1];
    match ev
    case Accept(plan, now, prepared) => AcceptKeeps(db, plan, now, prepared);
    case Move(m, now, prepared) => MoveKeeps(db, m, now, prepared);
    case Start(approval, now) => ActivateKeeps(db, approval, now);
    case Commit(pass, now) => CommitStepKeeps(history, pass, now);
    case Record(repo, commits, now) => PublishCommitsKeep(db, repo, commits, now);
    case Retire(tuples, now, prepared) => RetireAllKeeps(db, tuples, now, prepared);
    case Sweep(among) => DropShadowsKeeps(db, among);
    case PruneReceipts(now) => PruneKeeps(db, now);
    case Ask(ref) => AskKeeps(db, ref);
    case StoreBody(digest) => StoringBodiesKeeps(db, {digest});
  }

  lemma AskKeeps(db: Db, ref: ItemRef)
    requires Inv(db)
    ensures Inv(Remember(db, ref)) && Evolves(db, Remember(db, ref))
  {
    hide Inv, Evolves, Remember, Answered, AnswersOnly;
    RememberIsFaithful(db, ref);
    AnswersOnlyKeepsInv(db, Remember(db, ref));
    RememberEvolves(db, ref);
  }

  lemma CommitStepKeeps(history: seq<Db>, pass: Pass, now: int)
    requires history != []
    requires var db := history[|history| - 1];
             Inv(db) && PassBodies(pass) <= db.bucket
             && (exists a | a in history :: ScannedIn(a, pass)) && forall a | a in history :: Evolves(a, db)
    ensures var db := history[|history| - 1];
            Inv(CommitPass(db, pass, now)) && Evolves(db, CommitPass(db, pass, now)) && SameViews(db, CommitPass(db, pass, now))
  {
    hide Inv, PreparePass, PassBodies, CommitPass, RowidsDistinct, Shrinks, FeedMoves, ViewRaises, Remembers, SameViews;
    var db := history[|history| - 1];
    var a :| a in history && ScannedIn(a, pass);
    assert Evolves(a, db);
    CommitKeeps(a, db, pass, now);
  }

  // ----- whole runs -----

  /** In every state of a run the invariant holds, and nothing an earlier state had is undone. */
  lemma {:induction false} RunKeeps(h: seq<Db>, evs: seq<Event>, n: nat)
    requires Run(h, evs) && Inv(h[0]) && n < |h|
    ensures forall i | 0 <= i <= n :: Inv(h[i]) && Evolves(h[i], h[n])
  {
    hide Inv, Evolves, Enabled, Step, WellKeyed, Formats, RowidsDistinct, FeedOrder;
    EvolvesItself(h[n]);
    if n > 0 {
      RunKeeps(h, evs, n - 1);
      var history := h[..n];
      assert Enabled(h[..n - 1 + 1], evs[n - 1]);
      StepKeeps(history, evs[n - 1]);
      forall i | 0 <= i < n ensures Evolves(h[i], h[n]) {
        InvIsFormats(h[i]);
        EvolvesTransitive(h[i], h[n - 1], h[n]);
      }
    }
  }

  lemma Reached(h: seq<Db>, evs: seq<Event>, i: nat, j: nat)
    requires Run(h, evs) && Inv(h[0]) && i <= j < |h|
    ensures Inv(h[i]) && Inv(h[j]) && Evolves(h[i], h[j])
  {
    hide Inv, Evolves, Run;
    assert |h| == |evs| + 1 by { RunLength(h, evs); }
    RunKeeps(h, evs, j);
  }

  lemma RunLength(h: seq<Db>, evs: seq<Event>)
    requires Run(h, evs)
    ensures |h| == |evs| + 1
  {
  }

  /** Once an item is answered it stays answered: through requeues, tuple moves, receipt pruning,
      migration and retirement alike. */
  lemma AnsweredForever(h: seq<Db>, evs: seq<Event>, i: nat, j: nat, ref: ItemRef)
    requires Run(h, evs) && Inv(h[0]) && i <= j < |h| && Answered(h[i], ref)
    ensures Answered(h[j], ref)
  {
    hide Run, Inv, Answered, FeedMoves, ViewRaises, Shrinks;
    Reached(h, evs, i, j);
  }

  /** A retained publication of the row that reached a lifecycle other than a requeue. */
  ghost predicate ProvedBy(db: Db, ref: ItemRef, s: Section, r: ReceiptKey) {
    var k := KeyOf(ref, s);
    && Primary(s) && k in db.v1 && db.v1[k].meta.digest.Some? && db.v1[k].meta.digest.value.body.completesReview
    && r in db.receipts && Wrote(db.receipts[r], db.v1[k].meta)
    && db.receipts[r].lifecycle.Some? && !db.receipts[r].lifecycle.value.Requeue?
  }

  lemma AnswersExactlyWhenProved(db: Db, ref: ItemRef, s: Section)
    requires Inv(db) && Primary(s)
    ensures EvidenceAt(db, KeyOf(ref, s)).Answers? <==> exists r :: ProvedBy(db, ref, s, r)
  {
    hide WellKeyed, V1Bodies, V2Bodies, Sourced, FeedOrder, Owned, ReceiptsFit, Formats, Frontier, RowidsDistinct, V1Body;
    var k := KeyOf(ref, s);
    if k in db.v1 {
      assert k !in db.v2 && k in db.exports && ExportAgrees(db.v1[k].meta, db.exports[k]) by { FirstFormatOnly(db, k); }
      if db.exports[k].digest.Some? {
        EntriesResolve(db, k);
        hide ExportBody;
        if r :| ProvedBy(db, ref, s, r) {
          assert r in Provenance(db, k);
          forall q | q in Provenance(db, k) ensures q == r {}
        } else if q :| q in Provenance(db, k) && db.receipts[q].lifecycle.Some? {
          assert !ProvedBy(db, ref, s, q);
        }
      }
    }
  }

  lemma FirstFormatOnly(db: Db, k: Key)
    requires Inv(db) && k in db.v1
    ensures k !in db.v2 && k in db.exports && ExportAgrees(db.v1[k].meta, db.exports[k])
  {
  }

  /** An item not yet in the answer table is answered exactly when a retained publication proves it. */
  lemma AnsweredExactlyWhenProved(h: seq<Db>, evs: seq<Event>, i: nat, ref: ItemRef)
    requires Run(h, evs) && Inv(h[0]) && i < |h| && ref !in h[i].answers
    ensures Answered(h[i], ref) <==> exists s, r :: ProvedBy(h[i], ref, s, r)
  {
    hide Run, Inv, Evolves, EvidenceAt, ProvedBy;
    Reached(h, evs, i, i);
    AnswersExactlyWhenProved(h[i], ref, Items);
    AnswersExactlyWhenProved(h[i], ref, Closed);
    forall s, r | ProvedBy(h[i], ref, s, r) ensures s.Items? || s.Closed? {
      ProofsArePrimary(h[i], ref, s, r);
    }
  }

  lemma ProofsArePrimary(db: Db, ref: ItemRef, s: Section, r: ReceiptKey)
    requires ProvedBy(db, ref, s, r)
    ensures s.Items? || s.Closed?
  {
  }

  /** Whatever an import says, it answers nothing by itself. */
  lemma ImportsAloneAnswerNothing(h: seq<Db>, evs: seq<Event>, i: nat, ref: ItemRef)
    requires Run(h, evs) && Inv(h[0]) && i < |h| && ref !in h[i].answers
    requires forall s: Section | Primary(s) && KeyOf(ref, s) in h[i].exports :: h[i].exports[KeyOf(ref, s)].imported
    ensures !Answered(h[i], ref)
  {
    hide Run, Answered, WellKeyed, V1Bodies, V2Bodies, Sourced, FeedOrder, Owned, ReceiptsFit, ReceiptsUnique, Formats, Frontier,
      RowidsDistinct, Wrote;
    assert Inv(h[i]) by { hide Inv, Evolves; Reached(h, evs, i, i); }
    AnsweredExactlyWhenProved(h, evs, i, ref);
  }

  /** At every step boundary: no key is in both formats, the read view and the canonical export
      rows agree, and every live export entry resolves to the body of its digest. */
  lemma MeaningIsPreserved(h: seq<Db>, evs: seq<Event>, i: nat, k: Key)
    requires Run(h, evs) && Inv(h[0]) && i < |h|
    ensures var db := h[i];
            && !(k in db.v1 && k in db.v2)
            && (Stored(db, k) <==> k in db.exports && !db.exports[k].imported && !k.section.Commits?)
            && (Stored(db, k) ==> db.exports[k].digest == MetaOf(db, k).digest && db.exports[k].revision == MetaOf(db, k).revision)
            && (k in db.exports && db.exports[k].digest.Some? ==> ExportBody(db, k) == Some(db.exports[k].digest.value.body))
  {
    hide Run;
    assert Inv(h[i]) by { hide Inv, Evolves; Reached(h, evs, i, i); }
    if k in h[i].exports && h[i].exports[k].digest.Some? {
      EntriesResolve(h[i], k);
    }
    hide FeedOrder, ReceiptsFit, ReceiptsUnique, Frontier, RowidsDistinct, ExportBody;
  }

  lemma EntriesResolve(db: Db, k: Key)
    requires Inv(db) && k in db.exports && db.exports[k].digest.Some?
    ensures ExportBody(db, k) == Some(db.exports[k].digest.value.body)
  {
    hide FeedOrder, ReceiptsFit, ReceiptsUnique, Frontier, RowidsDistinct, Owned, Formats;
  }

  /** Committing a migration pass changes neither the read view nor the export index. */
  lemma MigrationIsInvisible(h: seq<Db>, evs: seq<Event>, i: nat)
    requires Run(h, evs) && Inv(h[0]) && i < |evs| && evs[i].Commit?
    ensures SameViews(h[i], h[i + 1])
  {
    hide Inv, Evolves, SameViews, PreparePass, PassBodies, CommitPass, RowidsDistinct;
    RunKeeps(h, evs, i);
    assert Enabled(h[..i + 1], evs[i]);
    CommitStepKeeps(h[..i + 1], evs[i].pass, evs[i].now);
  }

  /** After activation version 1 only loses rows; a row the cursor has passed lies above a recorded
      restart point; and a completed migration has nothing left, then and ever after. */
  lemma MigrationLosesNoRow(h: seq<Db>, evs: seq<Event>, i: nat, j: nat, k: Key)
    requires Run(h, evs) && Inv(h[0]) && i <= j < |h| && h[i].format.V2?
    ensures h[j].format.V2? && (k in h[j].v1 ==> k in h[i].v1 && h[j].v1[k].rowid == h[i].v1[k].rowid)
    ensures k in h[i].v1 ==> Stored(h[j], k)
    ensures h[i].tiering.Some?
    ensures k in h[i].v1 && h[i].v1[k].rowid <= h[i].tiering.value.after ==>
              h[i].tiering.value.deferred.Some? && h[i].tiering.value.deferred.value < h[i].v1[k].rowid
    ensures h[i].tiering.value.completedAt.Some? ==> Drained(h[i]) && Drained(h[j])
  {
    hide Run;
    assert Inv(h[i]) && Inv(h[j]) && Shrinks(h[i], h[j]) && ViewRaises(h[i], h[j]) by {
      hide Inv, FeedMoves, Remembers, Shrinks, ViewRaises;
      Reached(h, evs, i, j);
    }
    hide ReceiptsFit, ReceiptsUnique, Owned, Sourced, Agreement, FeedOrder, TupleRevision;
    if Drained(h[i]) {
      assert h[j].v1.Keys == {} && h[j].chunks.Keys == {};
    }
  }

  /** A tuple's revision never falls, and a row that differs from an earlier state's lies strictly
      above everything its tuple had then reached, whatever receipts are left. */
  lemma WritesRaiseTheTuple(h: seq<Db>, evs: seq<Event>, i: nat, j: nat, k: Key)
    requires Run(h, evs) && Inv(h[0]) && i <= j < |h|
    ensures TupleRevision(h[j], RefOf(k)) >= TupleRevision(h[i], RefOf(k))
    ensures Stored(h[j], k) ==> SameVersion(h[i], h[j], k) || MetaOf(h[j], k).revision > TupleRevision(h[i], RefOf(k))
  {
    hide Run, Inv, FeedMoves, Shrinks, Remembers, TupleRevision, WellKeyed, Formats, RowidsDistinct, FeedOrder;
    Reached(h, evs, i, j);
    InvIsFormats(h[i]);
    RaisedTuple(h[i], h[j], RefOf(k));
  }

  /** Live content prepared while format 1 was in force is refused once format 2 is. */
  lemma StalePreparationIsRefused(h: seq<Db>, evs: seq<Event>, i: nat, j: nat, plan: Plan, now: int, ops: seq<Op>)
    requires Run(h, evs) && Inv(h[0]) && i <= j < |h| && h[i].format.V1? && h[j].format.V2?
    requires TupleOps(plan.ops) == Some(ops) && exists op | op in ops :: Payload(op).Some?
    ensures var a := AcceptPlan(h[j], plan, now, PrepareWrites(h[i], ops));
            !a.verdict.Accepted? && SameRecords(h[j], a.db)
  {
    hide Run, Inv, Evolves, TupleOps, Prune, AcceptPlan, Formats, WellKeyed, RowidsDistinct, FeedOrder;
    Reached(h, evs, i, j);
    InvIsFormats(h[j]);
    AcceptedExactlyWhen(h[j], plan, now, PrepareWrites(h[i], ops));
    RefusedWritesNothing(h[j], plan, now, PrepareWrites(h[i], ops));
  }

  /** The same for a tuple mutation. */
  lemma StaleMutationIsRefused(h: seq<Db>, evs: seq<Event>, i: nat, j: nat, m: Mutation, now: int)
    requires Run(h, evs) && Inv(h[0]) && i <= j < |h| && h[i].format.V1? && h[j].format.V2?
    requires exists op | op in m.ops :: Payload(op).Some?
    ensures var r := MoveTuple(h[j], m, now, PrepareWrites(h[i], m.ops));
            !r.verdict.Moved? && SameRecords(h[j], r.db)
  {
    hide Run, Inv, Evolves, MoveTuple, Unchanged, Formats, WellKeyed, RowidsDistinct, FeedOrder;
    Reached(h, evs, i, j);
    InvIsFormats(h[j]);
    MovedExactlyWhen(h[j], m, now, PrepareWrites(h[i], m.ops));
  }

  lemma RefusedWritesNothing(db: Db, plan: Plan, now: int, prepared: set<Digest>)
    requires !AcceptPlan(db, plan, now, prepared).verdict.Accepted?
    ensures SameRecords(db, AcceptPlan(db, plan, now, prepared).db)
  {
    hide Prune, WriteAll, TupleOps, TupleRevision, StoredOps, SamePayload, NewerRetained;
    PruneKeepsRecords(db, now);
  }
}

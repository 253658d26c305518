/** What a publication may write, told from the retained receipts; and what it wrote. */
module CanonicalFencing {
  import opened Ordering
  import opened CanonicalTables
  import opened CanonicalTransactions
  import opened CanonicalInvariant
  import opened CanonicalEvolution
  import opened CanonicalAcceptance

  lemma PruneKeepsRecords(db: Db, now: int)
    ensures SameRecords(db, Prune(db, now))
  {
    hide Prune;
    PruneTouchesOnlyReceipts(db, now);
  }

  ghost predicate FinishedReceipt(db: Db, plan: Plan) {
    var key := ReceiptKey(plan.fence, plan.revision);
    key in db.receipts && db.receipts[key].state.Terminal()
  }

  /** While a higher revision of the fence is retained, a lower one writes no record. */
  lemma LowerRevisionWritesNothing(db: Db, plan: Plan, now: int, prepared: set<Digest>)
    requires NewerRetained(Prune(db, now), plan.fence, plan.revision)
    ensures SameRecords(db, AcceptPlan(db, plan, now, prepared).db)
    ensures !AcceptPlan(db, plan, now, prepared).verdict.Accepted?
  {
    hide Prune, WriteAll, TupleOps, TupleRevision, StoredOps, SamePayload, NewerRetained, ReceiptOf, PlanWriter;
    PruneKeepsRecords(db, now);
    DropOwnKeepsNewer(Prune(db, now), plan);
  }

  /** A retained finished plan is immutable: the same payload, under any claim generation, changes
      no record and no other receipt; any other payload is refused and nothing changes at all. */
  lemma FinishedPlanIsImmutable(db: Db, plan: Plan, now: int, prepared: set<Digest>, generation: int)
    requires TupleOps(plan.ops).Some? && FinishedReceipt(Prune(db, now), plan)
    ensures var same := SamePayload(Prune(db, now).receipts[ReceiptKey(plan.fence, plan.revision)], plan);
            var replay := AcceptPlan(db, plan.(generation := generation), now, prepared);
            && (same ==> replay.db == Prune(db, now) && SameRecords(db, replay.db)
                         && (replay.verdict.Deduped? || replay.verdict.SupersededPlan?))
            && (!same ==> replay == Accepting(db, ConflictingRetry))
  {
    hide Prune, WriteAll, TupleOps, TupleRevision, StoredOps;
    PruneKeepsRecords(db, now);
  }

  ghost predicate BodiesReady(db: Db, ops: seq<Op>, prepared: set<Digest>) {
    db.format.V2? ==> forall op | op in ops && Payload(op).Some? :: Sha256(Payload(op).value) in prepared
  }

  lemma {:induction false} WriteAllNeedsBodies(db: Db, ops: seq<Op>, w: Writer)
    requires Formats(db)
    ensures WriteAll(db, ops, w).Some? <==> BodiesReady(db, ops, w.prepared)
    decreases |ops|
  {
    hide Formats;
    if ops != [] {
      var first := WriteOp(db, ops[0], w);
      if first.Some? {
        WriteMoves(db, ops[0], w);
        assert Formats(first.value) by { WriteKeepsFormats(db, ops[0], w); }
        WriteAllNeedsBodies(first.value, ops[1..], w);
      }
    }
  }

  lemma WriteKeepsFormats(db: Db, op: Op, w: Writer)
    requires Formats(db) && WriteOp(db, op, w).Some?
    ensures Formats(WriteOp(db, op, w).value) && WriteOp(db, op, w).value.format == db.format
  {
    var s := Seeded(db, op, w);
    SeededIsFaithful(db, op, w);
    hide Remember, Answered;
  }

  /** The exact condition for a publication to write: a well-formed tuple, no finished receipt of
      its own, no higher revision retained, and every live body prepared for the format in force.
      So content prepared before activation is refused after it. */
  lemma AcceptedExactlyWhen(db: Db, plan: Plan, now: int, prepared: set<Digest>)
    requires Formats(db)
    ensures AcceptPlan(db, plan, now, prepared).verdict.Accepted? <==>
              && TupleOps(plan.ops).Some?
              && !FinishedReceipt(Prune(db, now), plan)
              && !NewerRetained(Prune(db, now), plan.fence, plan.revision)
              && BodiesReady(db, TupleOps(plan.ops).value, prepared)
    ensures AcceptPlan(db, plan, now, prepared).verdict.BodyUnavailable? ==> AcceptPlan(db, plan, now, prepared).db == db
  {
    hide Prune, WriteAll, TupleOps, TupleRevision, BodiesReady, Formats;
    PruneKeepsRecords(db, now);
    var p := Prune(db, now);
    var key := ReceiptKey(plan.fence, plan.revision);
    if TupleOps(plan.ops).Some? && !FinishedReceipt(p, plan) {
      var o := Drop(p, {key});
      assert NewerRetained(o, plan.fence, plan.revision) <==> NewerRetained(p, plan.fence, plan.revision) by {
        DropOwnKeepsNewer(p, plan);
      }
      assert Formats(o) by { SameFormats(db, o); }
      var w := PlanWriter(plan, now, Max(plan.revision, TupleRevision(o, plan.Ref()) + 1), prepared);
      WriteAllNeedsBodies(o, TupleOps(plan.ops).value, w);
      SameBodiesReady(db, o, TupleOps(plan.ops).value, prepared);
    }
  }

  lemma DropOwnKeepsNewer(p: Db, plan: Plan)
    ensures NewerRetained(Drop(p, {ReceiptKey(plan.fence, plan.revision)}), plan.fence, plan.revision)
       <==> NewerRetained(p, plan.fence, plan.revision)
  {
    if NewerRetained(p, plan.fence, plan.revision) {
      var r :| r in p.receipts && r.fence == plan.fence && r.revision > plan.revision;
      assert r in Drop(p, {ReceiptKey(plan.fence, plan.revision)}).receipts;
    }
  }

  lemma SameFormats(a: Db, b: Db)
    requires Formats(a) && b.format == a.format && b.v2 == a.v2 && b.tiering == a.tiering
    ensures Formats(b)
  {
  }

  lemma SameBodiesReady(a: Db, b: Db, ops: seq<Op>, prepared: set<Digest>)
    requires a.format == b.format
    ensures BodiesReady(a, ops, prepared) == BodiesReady(b, ops, prepared)
  {
  }

  lemma PruneRetains(db: Db, now: int)
    ensures Prune(db, now).receipts == db.receipts - Members(Expired(db, now))
  {
    hide Expired, RememberEach, Answered;
    RememberEachFacts(db, Expired(db, now));
  }

  /** Pruning takes only finished receipts beyond retention, oldest first, and as many as its limit
      allows. */
  lemma PruneTakesTheOldest(db: Db, now: int, gone: ReceiptKey, kept: ReceiptKey)
    requires gone in db.receipts && gone !in Prune(db, now).receipts && kept in Prune(db, now).receipts
    ensures db.receipts[gone].state.Terminal() && db.receipts[gone].updatedAt <= now - RETENTION_MS
    ensures kept in db.receipts && Prune(db, now).receipts[kept] == db.receipts[kept]
    ensures db.receipts[kept].state.Terminal() && db.receipts[kept].updatedAt <= now - RETENTION_MS ==>
              db.receipts[gone].updatedAt <= db.receipts[kept].updatedAt && |Expired(db, now)| == PRUNE_LIMIT
  {
    hide Prune, RememberEach, Sorted, Answered;
    PruneRetains(db, now);
    var ages := TerminalAges(db, now - RETENTION_MS);
    assert gone in Sorted(ages);
    if kept in ages {
      assert kept in Sorted(ages);
      LimitKeepsTheLeast(ages, PRUNE_LIMIT, gone, kept);
    }
  }

  /** The early look at the receipts is exact: with the bodies it asks for prepared, and nothing
      in between, a well-formed publication is written if and only if that look said so. */
  lemma PreparationIsSkippedExactly(db: Db, plan: Plan, now: int)
    requires Formats(db) && TupleOps(plan.ops).Some?
    ensures var prepared := PrepareWrites(db, TupleOps(plan.ops).value);
            AcceptPlan(db, plan, now, prepared).verdict.Accepted? <==> NeedsBodies(db, plan, now)
  {
    hide Prune, Expired, TupleOps, AcceptPlan, Formats;
    var prepared := PrepareWrites(db, TupleOps(plan.ops).value);
    AcceptedExactlyWhen(db, plan, now, prepared);
    PruneRetains(db, now);
    var p := Prune(db, now);
    var gone := Members(Expired(db, now));
    if NewerRetained(p, plan.fence, plan.revision) {
      var r :| r in p.receipts && r.fence == plan.fence && r.revision > plan.revision;
      assert r in db.receipts && r !in gone;
    }
    if exists r | r in db.receipts && r !in gone :: r.fence == plan.fence && r.revision > plan.revision {
      var r :| r in db.receipts && r !in gone && r.fence == plan.fence && r.revision > plan.revision;
      assert r in p.receipts;
    }
  }

  // ----- what an accepted publication leaves -----

  /** The row under the operation's key is exactly this operation, written by this writer. */
  ghost predicate RowIs(db: Db, op: Op, w: Writer) {
    var k := KeyOf(w.ref, op.section);
    Stored(db, k) && MetaOf(db, k) == MetaFor(op, w)
  }

  lemma WriteIsExact(db: Db, op: Op, w: Writer, k: Key)
    requires Formats(db) && WriteOp(db, op, w).Some?
    ensures RowIs(WriteOp(db, op, w).value, op, w)
    ensures k != KeyOf(w.ref, op.section) ==> SameRow(db, WriteOp(db, op, w).value, k)
  {
    hide Place, Placed, Remember, Answered, WriteOp, Seeded, Credit, AnswersOnly, SameRow, Stored, MetaOf, Formats, MetaFor;
    var j := KeyOf(w.ref, op.section);
    var s := Seeded(db, op, w);
    var p := Place(s, j, Payload(op), MetaFor(op, w));
    var u := WriteOp(db, op, w).value;
    WriteOpShape(db, op, w);
    var rowid := PlaceIsPlaced(s, j, Payload(op), MetaFor(op, w));
    PlacedRow(s, p, j, Payload(op), MetaFor(op, w), rowid);
    AnswersOnlyStored(p, u, j);
    if k != j {
      AnswersOnlySameRow(db, s, k);
      PlacedSameRow(s, p, j, Payload(op), MetaFor(op, w), rowid, k);
      AnswersOnlySameRow(p, u, k);
      SameRowTransitive(db, s, p, k);
      SameRowTransitive(db, p, u, k);
    }
  }

  lemma WriteOpShape(db: Db, op: Op, w: Writer)
    requires Formats(db) && WriteOp(db, op, w).Some?
    ensures var s := Seeded(db, op, w);
            var p := Place(s, KeyOf(w.ref, op.section), Payload(op), MetaFor(op, w));
            && AnswersOnly(db, s) && Formats(s)
            && WriteOp(db, op, w).value == Credit(p, op, w) && AnswersOnly(p, Credit(p, op, w))
  {
    hide Place, Remember, Answered;
    SeededIsFaithful(db, op, w);
  }

  lemma AnswersOnlySameRow(a: Db, b: Db, k: Key)
    requires AnswersOnly(a, b)
    ensures SameRow(a, b, k)
  {
  }

  lemma PlacedRow(db: Db, u: Db, k: Key, body: Option<Body>, meta: Meta, rowid: int)
    requires Placed(db, u, k, body, meta, rowid) && Formats(db)
    ensures Stored(u, k) && MetaOf(u, k) == meta
  {
  }

  /** After the whole tuple is written, each operation's row is that operation, and rows under
      keys no operation names are untouched. */
  lemma {:induction false} WriteAllIsExact(db: Db, ops: seq<Op>, w: Writer, k: Key)
    requires Formats(db) && WriteAll(db, ops, w).Some?
    requires forall i, j | 0 <= i < j < |ops| :: ops[i].section != ops[j].section
    ensures var u := WriteAll(db, ops, w).value;
            && (forall op | op in ops && KeyOf(w.ref, op.section) == k :: RowIs(u, op, w))
            && ((forall op | op in ops :: KeyOf(w.ref, op.section) != k) ==> SameRow(db, u, k))
    decreases |ops|
  {
    if ops != [] {
      hide Formats, WriteOp, MetaOf, Stored, MetaFor;
      var v := WriteOp(db, ops[0], w).value;
      var u := WriteAll(db, ops, w).value;
      WriteKeepsFormats(db, ops[0], w);
      WriteIsExact(db, ops[0], w, k);
      WriteAllIsExact(v, ops[1..], w, k);
      assert forall op | op in ops :: op == ops[0] || op in ops[1..];
      if KeyOf(w.ref, ops[0].section) == k {
        forall op | op in ops[1..] ensures KeyOf(w.ref, op.section) != k {
          var i :| 0 <= i < |ops[1..]| && ops[1..][i] == op;
          assert ops[1..][i] == ops[i + 1];
        }
        assert SameRow(v, u, k);
        assert RowIs(u, ops[0], w) by { SameRowIs(v, u, ops[0], w); }
      } else {
        forall op | op in ops && KeyOf(w.ref, op.section) == k ensures RowIs(u, op, w) {
          assert op in ops[1..];
        }
        if forall op | op in ops :: KeyOf(w.ref, op.section) != k {
          assert SameRow(v, u, k);
          SameRowTransitive(db, v, u, k);
        }
      }
    }
  }

  lemma SameRowIs(v: Db, u: Db, op: Op, w: Writer)
    requires RowIs(v, op, w) && SameRow(v, u, KeyOf(w.ref, op.section))
    ensures RowIs(u, op, w)
  {
  }

  lemma SameRowTransitive(a: Db, b: Db, c: Db, k: Key)
    requires SameRow(a, b, k) && SameRow(b, c, k)
    ensures SameRow(a, c, k)
  {
  }

  lemma AddDeleteDistinct(ops: seq<Op>, s: Section)
    requires forall i, j | 0 <= i < j < |ops| :: ops[i].section != ops[j].section
    ensures var r := AddDelete(ops, s);
            && (forall i, j | 0 <= i < j < |r| :: r[i].section != r[j].section)
            && (forall op | op in ops :: op in r)
            && (exists op | op in r :: op.section == s)
            && (forall op | op in r && op !in ops :: op == Op(s, None, None))
  {
    var r := AddDelete(ops, s);
    if r != ops {
      assert r[|ops|] == Op(s, None, None) && Op(s, None, None) in r;
    }
  }

  lemma TupleOpsDistinct(plan: Plan)
    requires ValidPlan(plan) && TupleOps(plan.ops).Some?
    ensures var r := TupleOps(plan.ops).value;
            && (forall i, j | 0 <= i < j < |r| :: r[i].section != r[j].section)
            && (forall op | op in plan.ops :: op in r)
            && (forall op | op in r && op !in plan.ops :: op == Op(op.section, None, None))
  {
    var ops := plan.ops;
    var writes := PrimaryWrites(ops);
    hide AddDelete, PrimaryWrites;
    if |writes| == 1 {
      var a := if writes[0].section.Items? then Closed else Items;
      AddDeleteDistinct(ops, a);
      AddDeleteDistinct(AddDelete(ops, a), Plans);
      AddDeleteDistinct(AddDelete(ops, a), Packets);
      AddDeleteDistinct(AddDelete(AddDelete(ops, a), Plans), Packets);
    } else {
      AddDeleteDistinct(ops, Plans);
      AddDeleteDistinct(AddDelete(ops, Plans), Packets);
    }
  }

  /** An accepted publication leaves every file of its plan as the tuple's row, at the accepted
      revision, which is at least the plan's and strictly above all the tuple had reached; it
      touches no other tuple. */
  lemma AcceptedTupleIsExact(db: Db, plan: Plan, now: int, prepared: set<Digest>, op: Op, other: Key)
    requires Inv(db) && ValidPlan(plan) && prepared <= db.bucket
    requires AcceptPlan(db, plan, now, prepared).verdict.Accepted?
    requires op in plan.ops && RefOf(other) != plan.Ref()
    ensures var a := AcceptPlan(db, plan, now, prepared);
            var k := KeyOf(plan.Ref(), op.section);
            && Stored(a.db, k)
            && MetaOf(a.db, k) == Meta(DigestOf(Payload(op)), a.verdict.revision, plan.Target(), plan.generation, now)
            && a.verdict.revision >= plan.revision && a.verdict.revision > TupleRevision(db, plan.Ref())
            && SameRow(db, a.db, other)
  {
    hide Inv, Prune, WriteAll, TupleOps, TupleRevision, StoredOps, ValidPlan, NewerRetained, SamePayload, Formats;
    var p := Prune(db, now);
    PruneKeepsRecords(db, now);
    var o := Drop(p, {ReceiptKey(plan.fence, plan.revision)});
    assert SameRecords(db, o);
    SameRecordsRevisions(db, o);
    InvIsFormats(db);
    SameFormats(db, o);
    var ops := TupleOps(plan.ops).value;
    var a := AcceptPlan(db, plan, now, prepared);
    var w := PlanWriter(plan, now, a.verdict.revision, prepared);
    assert a.verdict.revision == Max(plan.revision, TupleRevision(o, plan.Ref()) + 1);
    var x := WriteAll(o, ops, w).value;
    TupleOpsDistinct(plan);
    WriteAllIsExact(o, ops, w, KeyOf(plan.Ref(), op.section));
    assert RowIs(x, op, w);
    WriteAllIsExact(o, ops, w, other);
    assert SameRow(o, x, other);
    assert SameRow(db, o, other) && SameRow(x, a.db, other) && SameRow(x, a.db, KeyOf(plan.Ref(), op.section));
  }

  // ----- what a tuple mutation may write, and leaves -----

  ghost predicate DeliveryRetained(db: Db, m: Mutation, now: int) { m.delivery in PruneDeliveries(db, now).deliveries }

  lemma PrunedDeliveriesRecords(db: Db, now: int)
    ensures SameRecords(db, PruneDeliveries(db, now))
  {
    hide Sorted, Limit;
  }

  lemma SameUnchanged(a: Db, b: Db, m: Mutation)
    requires SameRecords(a, b)
    ensures Unchanged(b, m) == Unchanged(a, m)
  {
    forall k ensures CurrentDigest(b, k) == CurrentDigest(a, k) {}
  }

  /** A mutation moves its tuple iff its delivery is new, every digest is the one it expects, and
      every live body is prepared; in every other case no record changes. */
  lemma MovedExactlyWhen(db: Db, m: Mutation, now: int, prepared: set<Digest>)
    requires Formats(db)
    ensures var r := MoveTuple(db, m, now, prepared);
            && (r.verdict.Moved? <==> !DeliveryRetained(db, m, now) && Unchanged(db, m) && BodiesReady(db, m.ops, prepared))
            && (!r.verdict.Moved? ==> SameRecords(db, r.db))
  {
    hide PruneDeliveries, WriteAll, TupleRevision, StoredOps, Unchanged, BodiesReady, Formats;
    var p := PruneDeliveries(db, now);
    PrunedDeliveriesRecords(db, now);
    SameUnchanged(db, p, m);
    SameFormats(db, p);
    SameBodiesReady(db, p, m.ops, prepared);
    var w := MoveWriter(p, m, now, prepared);
    WriteAllNeedsBodies(p, m.ops, w);
  }

  /** A delivery bound to other files is refused, and a repeated one reports the revision it reached. */
  lemma DeliveriesAreBound(db: Db, m: Mutation, now: int, prepared: set<Digest>)
    requires DeliveryRetained(db, m, now)
    ensures var r := MoveTuple(db, m, now, prepared);
            var d := PruneDeliveries(db, now).deliveries[m.delivery];
            if d.bound == Fingerprint(m.Ref(), StoredOps(m.ops), m.expected)
            then r.verdict == MoveDeduped(d.revision) && SameRecords(db, r.db)
            else r == Moving(db, BoundElsewhere)
  {
    hide PruneDeliveries, WriteAll, TupleRevision, StoredOps, Unchanged;
    PrunedDeliveriesRecords(db, now);
  }

  /** A moved tuple holds every file of the mutation one revision above all it had reached, and no
      other row changes. */
  lemma MovedTupleIsExact(db: Db, m: Mutation, now: int, prepared: set<Digest>, k: Key)
    requires Formats(db) && ValidMutation(m) && MoveTuple(db, m, now, prepared).verdict.Moved?
    ensures var r := MoveTuple(db, m, now, prepared);
            && r.verdict.revision == TupleRevision(db, m.Ref()) + 1
            && (forall op | op in m.ops && KeyOf(m.Ref(), op.section) == k ::
                  Stored(r.db, k) && MetaOf(r.db, k)
                    == Meta(DigestOf(Payload(op)), r.verdict.revision, Reconciler(m.repo, m.id), 1, now))
            && ((forall op | op in m.ops :: KeyOf(m.Ref(), op.section) != k) ==> SameRow(db, r.db, k))
  {
    hide PruneDeliveries, WriteAll, TupleRevision, StoredOps, Unchanged, Formats, Revision, OpFits;
    var p := PruneDeliveries(db, now);
    PrunedDeliveriesRecords(db, now);
    SameRecordsRevisions(db, p);
    SameFormats(db, p);
    var w := MoveWriter(p, m, now, prepared);
    var x := WriteAll(p, m.ops, w).value;
    assert forall i, j | 0 <= i < j < |m.ops| :: m.ops[i].section != m.ops[j].section;
    WriteAllIsExact(p, m.ops, w, k);
    RecordsAround(db, p, x, MoveTuple(db, m, now, prepared).db, k);
    if op :| op in m.ops && KeyOf(m.Ref(), op.section) == k {
      assert RowIs(x, op, w);
    }
  }

  /** Rows seen through changes beside the records. */
  lemma RecordsAround(a: Db, p: Db, x: Db, b: Db, k: Key)
    requires SameRecords(a, p) && SameRecords(x, b)
    ensures SameRow(p, x, k) ==> SameRow(a, b, k)
    ensures Stored(b, k) == Stored(x, k) && (Stored(x, k) ==> MetaOf(b, k) == MetaOf(x, k))
  {
  }
}

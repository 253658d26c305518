/** What a publication leaves in its tuple, told from the files of its plan and nothing else. */
module CanonicalPublication {
  import opened Ordering
  import opened CanonicalTables
  import opened CanonicalTransactions
  import opened CanonicalInvariant
  import opened CanonicalEvolution
  import opened CanonicalAcceptance
  import opened CanonicalFencing

  // ----- the plan's own files -----

  predicate Names(ops: seq<Op>, s: Section) { exists op | op in ops :: op.section == s }

  predicate WritesTo(ops: seq<Op>, s: Section) { exists op | op in ops :: op.section == s && op.content.Some? }

  /** Some primary file is deleted, and none is written. */
  predicate OnlyDeletes(ops: seq<Op>) {
    (Names(ops, Items) || Names(ops, Closed)) && !WritesTo(ops, Items) && !WritesTo(ops, Closed)
  }

  predicate WritesWithoutPacket(ops: seq<Op>) {
    exists op | op in ops :: (op.section.Items? || op.section.Closed?) && op.content.Some? && !op.content.value.namesPacket
  }

  /** The sections the plan deletes without naming them. */
  predicate Retires(ops: seq<Op>, s: Section) {
    !Names(ops, s) &&
    match s
    case Items => WritesTo(ops, Closed)
    case Closed => WritesTo(ops, Items)
    case Plans => WritesTo(ops, Closed) || OnlyDeletes(ops)
    case Packets => WritesWithoutPacket(ops) || OnlyDeletes(ops)
    case Commits => false
  }

  // ----- the completed tuple -----

  lemma {:induction false} PrimaryWritesAreAll(ops: seq<Op>)
    ensures forall op | op in ops && Writes(op) :: op in PrimaryWrites(ops)
    ensures |PrimaryWrites(ops)| <= |ops|
  {
    if ops != [] {
      PrimaryWritesAreAll(ops[1..]);
    }
  }

  lemma {:induction false} TwoPrimaryWrites(ops: seq<Op>)
    requires forall i, j | 0 <= i < j < |ops| :: ops[i].section != ops[j].section
    ensures |PrimaryWrites(ops)| >= 2 <==> WritesTo(ops, Items) && WritesTo(ops, Closed)
  {
    PrimaryWritesAreWrites(ops);
    PrimaryWritesAreAll(ops);
    PrimaryWritesAreDistinct(ops);
    var writes := PrimaryWrites(ops);
    hide PrimaryWrites;
    if |writes| >= 2 {
      assert writes[0] in writes && writes[1] in writes;
      assert writes[0].section.Items? || writes[1].section.Items?;
    }
    if WritesTo(ops, Items) && WritesTo(ops, Closed) {
      var a :| a in ops && a.section == Items && a.content.Some?;
      var b :| b in ops && b.section == Closed && b.content.Some?;
      assert a in writes && b in writes;
    }
  }

  lemma {:induction false} PrimaryWritesAreDistinct(ops: seq<Op>)
    requires forall i, j | 0 <= i < j < |ops| :: ops[i].section != ops[j].section
    ensures forall i, j | 0 <= i < j < |PrimaryWrites(ops)| :: PrimaryWrites(ops)[i].section != PrimaryWrites(ops)[j].section
  {
    if ops != [] {
      PrimaryWritesAreDistinct(ops[1..]);
      PrimaryWritesAreWrites(ops[1..]);
      forall op | op in ops[1..] ensures op.section != ops[0].section {
        var i :| 0 <= i < |ops[1..]| && ops[1..][i] == op;
        assert ops[i + 1] == op;
      }
    }
  }

  /** A plan is refused for its shape exactly when it writes both primary sections. */
  lemma ShapeRefusedExactlyWhen(plan: Plan)
    requires ValidPlan(plan)
    ensures TupleOps(plan.ops).None? <==> WritesTo(plan.ops, Items) && WritesTo(plan.ops, Closed)
  {
    hide PrimaryWrites, AddDelete;
    TwoPrimaryWrites(plan.ops);
  }

  lemma AddDeleteNames(ops: seq<Op>, s: Section)
    ensures forall x :: Names(AddDelete(ops, s), x) <==> Names(ops, x) || x == s
  {
    var r := AddDelete(ops, s);
    if r != ops {
      assert r[|ops|] == Op(s, None, None) && r[|ops|] in r;
    }
    forall x | Names(ops, x) ensures Names(r, x) {
      var op :| op in ops && op.section == x;
      assert op in r;
    }
  }

  /** The completed tuple names exactly the sections of the plan and those it retires. */
  lemma TupleOpsName(plan: Plan, s: Section)
    requires ValidPlan(plan) && TupleOps(plan.ops).Some?
    ensures Names(TupleOps(plan.ops).value, s) <==> Names(plan.ops, s) || Retires(plan.ops, s)
  {
    var ops := plan.ops;
    var writes := PrimaryWrites(ops);
    TwoPrimaryWrites(ops);
    PrimaryWritesAreWrites(ops);
    PrimaryWritesAreAll(ops);
    hide AddDelete, PrimaryWrites, Names;
    if |writes| == 1 {
      OnePrimaryWrite(ops, writes[0]);
      var a := if writes[0].section.Items? then Closed else Items;
      AddDeleteNames(ops, a);
      AddDeleteNames(AddDelete(ops, a), Plans);
      AddDeleteNames(AddDelete(ops, a), Packets);
      AddDeleteNames(AddDelete(AddDelete(ops, a), Plans), Packets);
    } else {
      NoPrimaryWrite(ops);
      AddDeleteNames(ops, Plans);
      AddDeleteNames(AddDelete(ops, Plans), Packets);
    }
  }

  lemma OnePrimaryWrite(ops: seq<Op>, op: Op)
    requires PrimaryWrites(ops) == [op]
    ensures (op.section.Items? || op.section.Closed?) && op.content.Some?
    ensures WritesTo(ops, Items) <==> op.section.Items?
    ensures WritesTo(ops, Closed) <==> op.section.Closed?
    ensures WritesWithoutPacket(ops) <==> !op.content.value.namesPacket
  {
    PrimaryWritesAreWrites(ops);
    PrimaryWritesAreAll(ops);
    hide PrimaryWrites;
    assert op in [op];
    assert forall x | x in ops && Writes(x) :: x in [op];
  }

  lemma NoPrimaryWrite(ops: seq<Op>)
    requires PrimaryWrites(ops) == []
    ensures !WritesTo(ops, Items) && !WritesTo(ops, Closed) && !WritesWithoutPacket(ops)
    ensures OnlyDeletes(ops) <==> exists op | op in ops :: Primary(op.section)
  {
    PrimaryWritesAreAll(ops);
    hide PrimaryWrites;
    assert forall op | op in ops :: !Writes(op);
    if op :| op in ops && Primary(op.section) {
      assert Names(ops, op.section);
    }
  }

  // ----- the tuple it leaves -----

  /** An accepted publication, section by section: a file it names holds its content, or the stripped
      view in its place; a section it retires is deleted; and any other keeps the row it had. All it
      touches shares one revision: the plan's, or one above all the tuple had reached. */
  lemma PublishedTupleIsExact(db: Db, plan: Plan, now: int, prepared: set<Digest>, s: Section)
    requires Inv(db) && ValidPlan(plan) && AcceptPlan(db, plan, now, prepared).verdict.Accepted?
    ensures var a := AcceptPlan(db, plan, now, prepared);
            var k := KeyOf(plan.Ref(), s);
            && a.verdict.revision == Max(plan.revision, TupleRevision(db, plan.Ref()) + 1)
            && (forall op | op in plan.ops && op.section == s :: HoldsFile(a.db, k, op, plan, a.verdict.revision, now))
            && (Retires(plan.ops, s) ==>
                  Stored(a.db, k) && MetaOf(a.db, k) == Meta(None, a.verdict.revision, plan.Target(), plan.generation, now))
            && (!Names(plan.ops, s) && !Retires(plan.ops, s) ==> SameRow(db, a.db, k))
  {
    hide Inv, Prune, WriteAll, TupleOps, TupleRevision, StoredOps, ValidPlan, NewerRetained, SamePayload, Formats, Retires,
      WellKeyed, RowidsDistinct, FeedOrder;
    var p := Prune(db, now);
    PruneKeepsRecords(db, now);
    var o := Drop(p, {ReceiptKey(plan.fence, plan.revision)});
    assert SameRecords(db, o);
    SameRecordsRevisions(db, o);
    InvIsFormats(db);
    SameFormats(db, o);
    var ops := TupleOps(plan.ops).value;
    var a := AcceptPlan(db, plan, now, prepared);
    var w := PlanWriter(plan, now, a.verdict.revision, prepared);
    assert a.verdict.revision == Max(plan.revision, TupleRevision(o, plan.Ref()) + 1);
    var x := WriteAll(o, ops, w).value;
    var k := KeyOf(plan.Ref(), s);
    TupleOpsDistinct(plan);
    TupleOpsName(plan, s);
    WriteAllIsExact(o, ops, w, k);
    RecordsAround(db, o, x, a.db, k);
    forall op | op in plan.ops && op.section == s ensures HoldsFile(a.db, k, op, plan, a.verdict.revision, now) {
      assert op in ops && RowIs(x, op, w);
    }
    if Retires(plan.ops, s) {
      var op :| op in ops && op.section == s;
      assert op !in plan.ops by { RetiredIsUnnamed(plan.ops, s); }
      assert RowIs(x, op, w);
    }
  }

  lemma RetiredIsUnnamed(ops: seq<Op>, s: Section)
    requires Retires(ops, s)
    ensures forall op | op in ops :: op.section != s
  {
  }

  ghost predicate HoldsFile(db: Db, k: Key, op: Op, plan: Plan, revision: int, now: int) {
    var body := if op.stripped.Some? then op.stripped else op.content;
    && Stored(db, k)
    && MetaOf(db, k) == Meta(if body.Some? then Some(Sha256(body.value)) else None, revision, plan.Target(), plan.generation, now)
  }

  // ----- replaying a publication -----

  lemma {:induction false} StoredOpsAreFaithful(a: seq<Op>, b: seq<Op>)
    ensures StoredOps(a) == StoredOps(b) <==>
              |a| == |b| && forall i | 0 <= i < |a| :: a[i].section == b[i].section && a[i].content == b[i].content
    decreases |a| + |b|
  {
    StoredOpsLength(a);
    StoredOpsLength(b);
    if a != [] && b != [] {
      StoredOpsAreFaithful(a[1..], b[1..]);
      assert StoredOps(a)[0] == StoredOp(a[0].section, DigestOf(a[0].content)) && StoredOps(a)[1..] == StoredOps(a[1..]);
      assert StoredOps(b)[0] == StoredOp(b[0].section, DigestOf(b[0].content)) && StoredOps(b)[1..] == StoredOps(b[1..]);
      assert StoredOps(a) == [StoredOps(a)[0]] + StoredOps(a)[1..];
      assert StoredOps(b) == [StoredOps(b)[0]] + StoredOps(b)[1..];
      if |a| == |b| && forall i | 0 <= i < |a| :: a[i].section == b[i].section && a[i].content == b[i].content {
        forall i | 0 <= i < |a[1..]| ensures a[1..][i].section == b[1..][i].section && a[1..][i].content == b[1..][i].content {
          assert a[1..][i] == a[i + 1] && b[1..][i] == b[i + 1];
        }
      } else if |a| == |b| {
        var i :| 0 <= i < |a| && !(a[i].section == b[i].section && a[i].content == b[i].content);
        if i > 0 { assert a[1..][i - 1] == a[i] && b[1..][i - 1] == b[i]; }
      }
    }
  }

  lemma {:induction false} StoredOpsLength(a: seq<Op>)
    ensures |StoredOps(a)| == |a|
  {
    if a != [] { StoredOpsLength(a[1..]); }
  }

  /** The same target, the same files with the same content, and the same lifecycle. */
  predicate SamePublication(a: Plan, b: Plan) {
    && a.owner == b.owner && a.name == b.name && a.id == b.id && a.lifecycle == b.lifecycle
    && |a.ops| == |b.ops| && (forall i | 0 <= i < |a.ops| :: a.ops[i].section == b.ops[i].section && a.ops[i].content == b.ops[i].content)
  }

  /** An accepted publication leaves a published receipt of just its own target, files and revision. */
  lemma ReceiptIsExact(db: Db, plan: Plan, now: int, prepared: set<Digest>)
    requires AcceptPlan(db, plan, now, prepared).verdict.Accepted?
    ensures var a := AcceptPlan(db, plan, now, prepared);
            var key := ReceiptKey(plan.fence, plan.revision);
            && key in a.db.receipts
            && a.db.receipts[key] == Receipt(plan.Target(), plan.generation, StoredOps(plan.ops), plan.lifecycle, Published, now,
                                             Some(a.verdict.revision))
  {
    hide Prune, WriteAll, TupleOps, TupleRevision, StoredOps, NewerRetained, SamePayload, PlanWriter, Drop;
  }

  lemma SamePayloadExactlyWhen(plan: Plan, again: Plan, r: Receipt)
    requires r.target == plan.Target() && r.ops == StoredOps(plan.ops) && r.lifecycle == plan.lifecycle
    ensures SamePayload(r, again) <==> SamePublication(plan, again)
  {
    hide StoredOps;
    StoredOpsAreFaithful(plan.ops, again.ops);
  }

  lemma FinishedReceiptDecides(u: Db, again: Plan, later: int, bodies: set<Digest>)
    requires ReceiptKey(again.fence, again.revision) in Prune(u, later).receipts && TupleOps(again.ops).Some?
    requires Prune(u, later).receipts[ReceiptKey(again.fence, again.revision)].state.Published?
    ensures var r := AcceptPlan(u, again, later, bodies);
            if SamePayload(Prune(u, later).receipts[ReceiptKey(again.fence, again.revision)], again)
            then r == Accepting(Prune(u, later), Deduped) else r == Accepting(u, ConflictingRetry)
  {
    hide Prune, WriteAll, TupleOps, TupleRevision, StoredOps, NewerRetained, SamePayload, PlanWriter, Drop, ReceiptOf;
  }

  /** The receipt an accepted publication leaves answers a later one under its fence and revision, for
      as long as it is retained: as done when it is the same publication, as a conflict otherwise. */
  lemma ReplayedExactlyWhenSame(db: Db, plan: Plan, now: int, prepared: set<Digest>, u: Db, again: Plan, later: int, bodies: set<Digest>)
    requires AcceptPlan(db, plan, now, prepared).verdict.Accepted?
    requires var key := ReceiptKey(plan.fence, plan.revision);
             key in Prune(u, later).receipts && key in AcceptPlan(db, plan, now, prepared).db.receipts
             && Prune(u, later).receipts[key] == AcceptPlan(db, plan, now, prepared).db.receipts[key]
    requires again.fence == plan.fence && again.revision == plan.revision && TupleOps(again.ops).Some?
    ensures var r := AcceptPlan(u, again, later, bodies);
            if SamePublication(plan, again) then r.verdict.Deduped? && SameRecords(u, r.db)
            else r == Accepting(u, ConflictingRetry)
  {
    hide Prune, AcceptPlan, TupleOps, StoredOps, SamePayload, SamePublication;
    ReceiptIsExact(db, plan, now, prepared);
    PruneKeepsRecords(u, later);
    SamePayloadExactlyWhen(plan, again, Prune(u, later).receipts[ReceiptKey(plan.fence, plan.revision)]);
    FinishedReceiptDecides(u, again, later, bodies);
  }

  // ----- the export index -----

  /** The export row of a written file: its version under a store revision never given before. */
  ghost predicate Exports(a: Db, b: Db, k: Key, op: Op, w: Writer) {
    && k in b.exports && k !in b.imports
    && a.exportRevision < b.exports[k].storeRevision <= b.exportRevision
    && b.exports[k] == ExportRow(DigestOf(Payload(op)), w.revision, b.exports[k].storeRevision, false, w.now)
  }

  ghost predicate SameExport(a: Db, b: Db, k: Key) {
    && (k in a.exports <==> k in b.exports) && (k in a.exports ==> b.exports[k] == a.exports[k])
    && (k in a.imports <==> k in b.imports) && (k in a.imports ==> b.imports[k] == a.imports[k])
  }

  lemma WriteExport(db: Db, op: Op, w: Writer, k: Key)
    requires Formats(db) && WriteOp(db, op, w).Some?
    ensures var u := WriteOp(db, op, w).value;
            && u.exportRevision == db.exportRevision + 1
            && (k == KeyOf(w.ref, op.section) ==> Exports(db, u, k, op, w))
            && (k != KeyOf(w.ref, op.section) ==> SameExport(db, u, k))
  {
    hide Place, Remember, Answered, WriteOp, Seeded, Credit, Formats;
    var j := KeyOf(w.ref, op.section);
    var s := Seeded(db, op, w);
    WriteOpShape(db, op, w);
    var rowid := PlaceIsPlaced(s, j, Payload(op), MetaFor(op, w));
    PlacedExports(s, Place(s, j, Payload(op), MetaFor(op, w)), j, Payload(op), MetaFor(op, w), rowid);
  }

  lemma PlacedExports(db: Db, u: Db, k: Key, body: Option<Body>, meta: Meta, rowid: int)
    requires Placed(db, u, k, body, meta, rowid)
    ensures u.exportRevision == db.exportRevision + 1 && u.imports == db.imports - {k}
    ensures u.exports == db.exports[k := ExportRow(meta.digest, meta.revision, u.exportRevision, false, meta.updatedAt)]
  {
  }

  lemma {:induction false} WriteAllExports(db: Db, ops: seq<Op>, w: Writer, k: Key)
    requires Formats(db) && WriteAll(db, ops, w).Some?
    requires forall i, j | 0 <= i < j < |ops| :: ops[i].section != ops[j].section
    ensures var u := WriteAll(db, ops, w).value;
            && u.exportRevision == db.exportRevision + |ops|
            && (forall op | op in ops && KeyOf(w.ref, op.section) == k :: Exports(db, u, k, op, w))
            && ((forall op | op in ops :: KeyOf(w.ref, op.section) != k) ==> SameExport(db, u, k))
    decreases |ops|
  {
    hide Formats, WriteOp, Payload;
    if ops != [] {
      var v := WriteOp(db, ops[0], w).value;
      var u := WriteAll(db, ops, w).value;
      WriteKeepsFormats(db, ops[0], w);
      WriteExport(db, ops[0], w, k);
      WriteAllExports(v, ops[1..], w, k);
      assert forall op | op in ops :: op == ops[0] || op in ops[1..];
      forall op | op in ops[1..] ensures op.section != ops[0].section {
        var i :| 0 <= i < |ops[1..]| && ops[1..][i] == op;
        assert ops[1..][i] == ops[i + 1];
      }
    }
  }

  /** Every file a publication names or retires is exported as a canonical version of its own content,
      under a fresh store revision, and shadows no import; no other export row or import changes. */
  lemma PublishedExportsAreExact(db: Db, plan: Plan, now: int, prepared: set<Digest>, k: Key)
    requires Inv(db) && ValidPlan(plan) && AcceptPlan(db, plan, now, prepared).verdict.Accepted?
    ensures var a := AcceptPlan(db, plan, now, prepared);
            var touched := RefOf(k) == plan.Ref() && (Names(plan.ops, k.section) || Retires(plan.ops, k.section));
            && (touched ==>
                  && k in a.db.exports && k !in a.db.imports && Stored(a.db, k)
                  && db.exportRevision < a.db.exports[k].storeRevision <= a.db.exportRevision
                  && a.db.exports[k] == ExportRow(MetaOf(a.db, k).digest, a.verdict.revision, a.db.exports[k].storeRevision, false, now))
            && (!touched ==> SameExport(db, a.db, k))
  {
    hide Inv, Prune, WriteAll, TupleOps, TupleRevision, StoredOps, ValidPlan, NewerRetained, SamePayload, Formats, Retires,
      WellKeyed, RowidsDistinct, FeedOrder, Payload;
    var p := Prune(db, now);
    PruneKeepsRecords(db, now);
    var o := Drop(p, {ReceiptKey(plan.fence, plan.revision)});
    InvIsFormats(db);
    SameFormats(db, o);
    var ops := TupleOps(plan.ops).value;
    var a := AcceptPlan(db, plan, now, prepared);
    var w := PlanWriter(plan, now, a.verdict.revision, prepared);
    SameRecordsRevisions(db, o);
    assert a.verdict.revision == Max(plan.revision, TupleRevision(o, plan.Ref()) + 1);
    var x := WriteAll(o, ops, w).value;
    TupleOpsDistinct(plan);
    TupleOpsName(plan, k.section);
    WriteAllIsExact(o, ops, w, k);
    WriteAllExports(o, ops, w, k);
    RecordsAround(db, o, x, a.db, k);
    if RefOf(k) == plan.Ref() && Names(ops, k.section) {
      var op :| op in ops && op.section == k.section;
      assert KeyOf(w.ref, op.section) == k && RowIs(x, op, w) && Exports(o, x, k, op, w);
    }
  }

  // ----- a publication that came too late -----

  /** While a higher revision is retained, an open publication is put on record as superseded, and asked
      again it is answered so. */
  lemma LatePublicationsAreRecorded(db: Db, plan: Plan, now: int, prepared: set<Digest>)
    requires TupleOps(plan.ops).Some? && NewerRetained(Prune(db, now), plan.fence, plan.revision) && !FinishedReceipt(Prune(db, now), plan)
    ensures var a := AcceptPlan(db, plan, now, prepared);
            var key := ReceiptKey(plan.fence, plan.revision);
            && a.verdict == SupersededPlan && key in a.db.receipts
            && a.db.receipts[key] == Receipt(plan.Target(), plan.generation, StoredOps(plan.ops), plan.lifecycle, Superseded, now, None)
            && (forall r | r != key :: (r in a.db.receipts <==> r in Prune(db, now).receipts)
                                       && (r in a.db.receipts ==> a.db.receipts[r] == Prune(db, now).receipts[r]))
  {
    hide Prune, WriteAll, TupleOps, TupleRevision, StoredOps, NewerRetained, SamePayload, PlanWriter;
    DropOwnKeepsNewer(Prune(db, now), plan);
  }

  // ----- forgetting deliveries -----

  /** Only deliveries beyond retention are forgotten, the oldest first and at most 256 at a time. */
  lemma DeliveriesForgottenAreOldest(db: Db, now: int, gone: int, kept: int)
    requires gone in db.deliveries && gone !in PruneDeliveries(db, now).deliveries && kept in PruneDeliveries(db, now).deliveries
    ensures db.deliveries[gone].receivedAt <= now - 604800000
    ensures kept in db.deliveries && PruneDeliveries(db, now).deliveries[kept] == db.deliveries[kept]
    ensures db.deliveries[kept].receivedAt <= now - 604800000 ==>
              && db.deliveries[gone].receivedAt <= db.deliveries[kept].receivedAt
              && |Limit(Sorted(DeliveryAges(db, now - RETENTION_MS)), PRUNE_LIMIT)| == 256
  {
    hide Sorted;
    var ages := DeliveryAges(db, now - RETENTION_MS);
    assert gone in Sorted(ages);
    if kept in ages {
      assert kept in Sorted(ages);
      LimitKeepsTheLeast(ages, PRUNE_LIMIT, gone, kept);
    }
  }
}

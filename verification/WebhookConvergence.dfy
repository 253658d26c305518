/** Deliveries converge whatever their order and repetition. */
module WebhookConvergence {
  import opened Ordering
  import opened WebhookReadModel
  import opened WebhookRetirement
  import opened WebhookSafety

  /** What orders two versions of an object: source time, then deletion. */
  datatype Stamp = Stamp(at: int, tombstone: bool) {
    predicate AtMost(other: Stamp) {
      at < other.at || (at == other.at && (tombstone ==> other.tombstone))
    }
  }

  function StampOf(m: Model, s: Slot): Option<Stamp> {
    if s in m.rows then Some(Stamp(m.rows[s].sourceAt, m.rows[s].tombstone)) else None
  }

  function Later(a: Option<Stamp>, b: Option<Stamp>): Option<Stamp> {
    if a.None? then b else if b.None? || b.value.AtMost(a.value) then a else b
  }

  function VersionOf(o: Object): Stamp { Stamp(o.sourceAt, o.tombstone) }

  /** The greatest version of one object in a sequence of deliveries. */
  function Latest(q: seq<Object>, s: Slot): Option<Stamp> {
    if q == [] then None
    else
      var rest := Latest(q[..|q| - 1], s);
      if q[|q| - 1].slot == s then Later(rest, Some(VersionOf(q[|q| - 1]))) else rest
  }

  // ----- below the row cap -----

  /** The rows, now and later, come from a universe that fits the caps. */
  ghost predicate Fits(m: Model, universe: set<Slot>) {
    && m.rows.Keys <= universe
    && (forall ref, table :: |InUniverse(universe, ref, table)| <= MAX_PER_ITEM)
  }

  function InUniverse(universe: set<Slot>, ref: Ref, table: Table): set<Slot> {
    set s | s in universe && s.ref == ref && TableOf(s) == table
  }

  lemma CapDoesNothing(m: Model, universe: set<Slot>, ref: Ref, table: Table)
    requires Fits(m, universe)
    ensures Cap(m, ref, table) == m
  {
    var newest := Newest(m, ref, table);
    assert newest.Keys <= InUniverse(universe, ref, table);
    SubsetSize(newest.Keys, InUniverse(universe, ref, table));
    assert |newest| == |newest.Keys|;
    assert |Ranked(m, ref, table)| == |newest|;
  }

  lemma UpsertConverges(m: Model, o: Object, receivedAt: int, universe: set<Slot>, s: Slot)
    requires Fits(m, universe) && o.slot in universe && !s.Item?
    ensures var u := Upsert(m, o, receivedAt, false, false);
            && Fits(u, universe)
            && StampOf(u, s) == (if o.slot == s then Later(StampOf(m, s), Some(VersionOf(o))) else StampOf(m, s))
  {
    hide Cap, Marked, WithKind;
    var v := if o.slot.Item? then UpsertItem(m, o, receivedAt, false)
             else if !Taken(m, o, false) then m
             else if o.slot.Comment? then Recheck(Insert(m, o.slot, NewRow(m, o, receivedAt, false)), o.slot.ref)
             else Insert(m, o.slot, NewRow(m, o, receivedAt, false));
    assert v.rows.Keys <= m.rows.Keys + {o.slot};
    assert Fits(v, universe);
    CapDoesNothing(v, universe, o.slot.ref, TableOf(o.slot));
  }

  lemma LatestAppends(p: seq<Object>, o: Object, s: Slot)
    ensures Latest(p + [o], s) == if o.slot == s then Later(Latest(p, s), Some(VersionOf(o))) else Latest(p, s)
  {
    assert (p + [o])[..|p|] == p;
  }

  lemma {:induction false} DeliverConverges(m: Model, q: seq<Object>, receivedAt: int, universe: set<Slot>, s: Slot,
                                            start: Option<Stamp>, before: seq<Object>)
    requires Fits(m, universe) && (forall o | o in q :: o.slot in universe) && !s.Item?
    requires StampOf(m, s) == Later(start, Latest(before, s))
    ensures var u := Deliver(m, q, receivedAt);
            Fits(u, universe) && StampOf(u, s) == Later(start, Latest(before + q, s))
    decreases |q|
  {
    hide Fits, Upsert, StampOf, Latest;
    if q == [] {
      assert before + q == before;
    } else {
      assert q[0] in q;
      UpsertConverges(m, q[0], receivedAt, universe, s);
      LatestAppends(before, q[0], s);
      assert before + [q[0]] + q[1..] == before + q;
      DeliverConverges(Upsert(m, q[0], receivedAt, false, false), q[1..], receivedAt, universe, s, start, before + [q[0]]);
    }
  }

  function Objects(evs: seq<Event>): seq<Object> {
    if evs == [] then []
    else Objects(evs[..|evs| - 1]) + if evs[|evs| - 1].Delivered? then evs[|evs| - 1].objects else []
  }

  ghost predicate NoRepairs(evs: seq<Event>) {
    forall ev | ev in evs :: !ev.Repaired?
  }

  lemma PassKeepsStamps(m: Model, now: int, universe: set<Slot>, s: Slot)
    requires RowidsDistinct(m) && now >= 0 && Fits(m, universe)
    ensures StampOf(PrunePayloads(m, now).model, s) == StampOf(m, s) && Fits(PrunePayloads(m, now).model, universe)
  {
    hide AllDue, RowidsDistinct, PrunePayloads, Protected, Idle;
    PassScansTheDue(m, now);
    var u := PrunePayloads(m, now).model;
    if s in m.rows { assert RowRetires(m, u, s, now); }
  }

  /** Below the row cap and without repairs, a comment, review or review comment ends at the
      greatest version it had or was delivered, whatever passes retire in between. */
  lemma {:induction false} RunsConverge(h: seq<Model>, evs: seq<Event>, universe: set<Slot>, s: Slot, n: nat)
    requires Run(h, evs) && Inv(h[0]) && NoRepairs(evs) && Fits(h[0], universe) && n <= |evs| && !s.Item?
    requires forall o | o in Objects(evs[..n]) :: o.slot in universe
    ensures Fits(h[n], universe) && StampOf(h[n], s) == Later(StampOf(h[0], s), Latest(Objects(evs[..n]), s))
    decreases n
  {
    hide Inv, Fits, StampOf, Latest, Deliver, PrunePayloads, RowidsDistinct, Repair;
    if n == 0 {
      assert evs[..0] == [] && Objects(evs[..0]) == [];
      LatestOfNone(s);
    } else {
      var ev := evs[n - 1];
      assert evs[..n][..n - 1] == evs[..n - 1] && ev in evs;
      assert Objects(evs[..n]) == Objects(evs[..n - 1]) + if ev.Delivered? then ev.objects else [];
      RunsConverge(h, evs, universe, s, n - 1);
      RunKeeps(h, evs, n - 1);
      InvIsRowids(h[n - 1]);
      if ev.Delivered? {
        DeliverConverges(h[n - 1], ev.objects, ev.receivedAt, universe, s, StampOf(h[0], s), Objects(evs[..n - 1]));
      } else {
        PassKeepsStamps(h[n - 1], ev.now, universe, s);
        assert Objects(evs[..n - 1]) + [] == Objects(evs[..n - 1]);
      }
    }
  }

  lemma LatestOfNone(s: Slot)
    ensures Latest([], s) == None && forall a: Option<Stamp> :: Later(a, None) == a
  {
  }

  // ----- order and repetition do not matter -----

  ghost predicate Delivers(q: seq<Object>, s: Slot, v: Stamp) {
    exists o | o in q :: o.slot == s && VersionOf(o) == v
  }

  lemma {:induction false} LatestIsGreatest(q: seq<Object>, s: Slot)
    ensures var latest := Latest(q, s);
            && (latest.Some? ==> Delivers(q, s, latest.value))
            && (forall o | o in q && o.slot == s :: latest.Some? && VersionOf(o).AtMost(latest.value))
  {
    if q != [] {
      var init, last := q[..|q| - 1], q[|q| - 1];
      LatestIsGreatest(init, s);
      assert q == init + [last];
      assert last in q && forall o | o in init :: o in q;
    }
  }

  /** Two sequences that deliver the same versions of an object, in any order and any number of
      times, agree on its greatest one. */
  lemma OrderDoesNotMatter(p: seq<Object>, q: seq<Object>, s: Slot)
    requires forall v: Stamp :: Delivers(p, s, v) <==> Delivers(q, s, v)
    ensures Latest(p, s) == Latest(q, s)
  {
    LatestIsGreatest(p, s);
    LatestIsGreatest(q, s);
    var a, b := Latest(p, s), Latest(q, s);
    if a.Some? {
      assert Delivers(q, s, a.value);
    }
    if b.Some? {
      assert Delivers(p, s, b.value);
    }
  }

  /** So two runs from one state that were delivered the same versions agree on every object. */
  lemma DeliveriesConverge(h: seq<Model>, evs: seq<Event>, g: seq<Model>, others: seq<Event>, universe: set<Slot>, s: Slot)
    requires Run(h, evs) && Run(g, others) && h[0] == g[0] && Inv(h[0])
    requires NoRepairs(evs) && NoRepairs(others) && Fits(h[0], universe) && !s.Item?
    requires forall o | o in Objects(evs) :: o.slot in universe
    requires forall o | o in Objects(others) :: o.slot in universe
    requires forall v: Stamp :: Delivers(Objects(evs), s, v) <==> Delivers(Objects(others), s, v)
    ensures StampOf(h[|evs|], s) == StampOf(g[|others|], s)
  {
    hide Inv, Fits, Latest, Step, NoRepairs, StampOf, Delivers, Objects;
    assert evs[..|evs|] == evs && others[..|others|] == others;
    RunsConverge(h, evs, universe, s, |evs|);
    RunsConverge(g, others, universe, s, |others|);
    OrderDoesNotMatter(Objects(evs), Objects(others), s);
  }

  // ----- items -----

  /** An item's newer write keeps every field it does not mention; a retired item stays retired
      until a repair confirms it whole. */
  lemma ItemsAreMerged(m: Model, o: Object, receivedAt: int, confirmed: bool, f: string)
    requires o.slot.Item? && o.slot in m.rows && f != "pull_request"
    ensures var u := UpsertItem(m, o, receivedAt, confirmed);
            var a, b := m.rows[o.slot], u.rows[o.slot];
            && o.slot in u.rows && b.sourceAt == (if a.sourceAt < o.sourceAt then o.sourceAt else a.sourceAt)
            && (o.sourceAt < a.sourceAt || (o.sourceAt == a.sourceAt && !confirmed) ==> b == a)
            && (a.pruned && !confirmed ==> b.pruned && (b == a || b.snapshot == map[]))
            && (o.sourceAt > a.sourceAt && !a.pruned ==>
                  !b.pruned && (f in b.snapshot <==> f in a.snapshot || f in o.snapshot)
                  && (f in o.snapshot ==> b.snapshot[f] == o.snapshot[f])
                  && (f in a.snapshot && f !in o.snapshot ==> b.snapshot[f] == a.snapshot[f]))
  {
  }
}

/** What comments, reviews and review comments are stored with: one write exactly, and over whole runs
    the content of the first delivery of the greatest version. */
module WebhookContents {
  import opened Ordering
  import opened WebhookReadModel
  import opened WebhookRetirement
  import opened WebhookSafety
  import opened WebhookConvergence
  import opened WebhookTombstones

  // ----- one write -----

  /** A write is taken when it is newer, or as new and a deletion or confirmed, and not over a tombstone. */
  predicate IsTaken(m: Model, o: Object, confirmed: bool) {
    o.slot in m.rows ==>
      || o.sourceAt > m.rows[o.slot].sourceAt
      || (o.sourceAt == m.rows[o.slot].sourceAt && (confirmed || o.tombstone) && !m.rows[o.slot].tombstone)
  }

  /** The row a taken write leaves: its own snapshot, or none where a placeholder poll retires it. */
  function Written(m: Model, o: Object, receivedAt: int, retired: bool): Row {
    Row(if o.slot in m.rows then m.rows[o.slot].rowid else m.next, o.sourceAt, o.tombstone,
        if retired then map[] else o.snapshot, receivedAt, retired, receivedAt + RETENTION_MS)
  }

  /** One write of a comment or of review activity: where the row cap keeps it, its row is exactly what
      was written, or unchanged where the write is not taken; of the other rows it can only let a
      parked item be looked at again. */
  lemma WriteIsExact(m: Model, o: Object, receivedAt: int, confirmed: bool, retire: bool)
    requires !o.slot.Item?
    ensures var u := Upsert(m, o, receivedAt, confirmed, retire);
            && (o.slot in u.rows ==>
                  u.rows[o.slot] == if IsTaken(m, o, confirmed) then Written(m, o, receivedAt, retire && o.slot.Comment?) else m.rows[o.slot])
            && (forall r | r in u.rows && r != o.slot ::
                  r in m.rows && (u.rows[r] == m.rows[r] || (r == Item(o.slot.ref) && u.rows[r] == m.rows[r].(retireAt := 0))))
  {
    hide Upsert, BeforeCap, Cap, Written, IsTaken;
    var v := BeforeCap(m, o, receivedAt, confirmed, retire);
    UpsertIsCapped(m, o, receivedAt, confirmed, retire);
    BeforeCapIsExact(m, o, receivedAt, confirmed, retire);
    CapElsewhere(v, o.slot.ref, TableOf(o.slot));
  }

  lemma BeforeCapIsExact(m: Model, o: Object, receivedAt: int, confirmed: bool, retire: bool)
    requires !o.slot.Item?
    ensures var v := BeforeCap(m, o, receivedAt, confirmed, retire);
            && (o.slot in v.rows ==>
                  v.rows[o.slot] == if IsTaken(m, o, confirmed) then Written(m, o, receivedAt, retire && o.slot.Comment?) else m.rows[o.slot])
            && (forall r | r in v.rows && r != o.slot ::
                  r in m.rows && (v.rows[r] == m.rows[r] || (r == Item(o.slot.ref) && v.rows[r] == m.rows[r].(retireAt := 0))))
  {
  }

  /** The census of an item is complete no longer once the row cap has dropped one of its comments, or a
      placeholder poll has written one without its body; a write of activity leaves it alone. */
  lemma WritesMarkTheCensus(m: Model, o: Object, receivedAt: int, confirmed: bool, retire: bool)
    requires !o.slot.Item?
    ensures var u := Upsert(m, o, receivedAt, confirmed, retire);
            var ref := o.slot.ref;
            var dropped := exists r :: r !in u.rows && (r in m.rows || (r == o.slot && IsTaken(m, o, confirmed)));
            u.collections ==
              if o.slot.Comment? && dropped then
                m.collections[ref := if ref in m.collections then m.collections[ref].(complete := false) else Collection(0, false)]
              else if o.slot.Comment? && retire && IsTaken(m, o, confirmed) && ref in m.collections then
                m.collections[ref := m.collections[ref].(complete := false)]
              else m.collections
  {
    hide Cap, Overflow, Ranked;
    var v := BeforeCap(m, o, receivedAt, confirmed, retire);
    var table := TableOf(o.slot);
    UpsertIsCapped(m, o, receivedAt, confirmed, retire);
    BeforeCapKeys(m, o, receivedAt, confirmed, retire);
    CapMarks(v, o.slot.ref, table);
  }

  lemma BeforeCapKeys(m: Model, o: Object, receivedAt: int, confirmed: bool, retire: bool)
    requires !o.slot.Item?
    ensures var v := BeforeCap(m, o, receivedAt, confirmed, retire);
            && v.rows.Keys == m.rows.Keys + (if IsTaken(m, o, confirmed) then {o.slot} else {})
            && v.collections ==
                 if o.slot.Comment? && retire && IsTaken(m, o, confirmed) && o.slot.ref in m.collections
                 then m.collections[o.slot.ref := m.collections[o.slot.ref].(complete := false)] else m.collections
  {
  }

  lemma CapMarks(v: Model, ref: Ref, table: Table)
    ensures var u := Cap(v, ref, table);
            && (forall r | r in u.rows :: r in v.rows)
            && (!table.Comments? ==> u.collections == v.collections)
            && (table.Comments? ==>
                  u.collections ==
                    if exists r :: r in v.rows && r !in u.rows then
                      v.collections[ref := if ref in v.collections then v.collections[ref].(complete := false) else Collection(0, false)]
                    else v.collections)
  {
    hide Ranked;
    CapElsewhere(v, ref, table);
    if table.Comments? && |Ranked(v, ref, table)| > MAX_PER_ITEM {
      RankedFacts(v, ref, table);
      var s := Ranked(v, ref, table)[MAX_PER_ITEM];
      assert s in Ranked(v, ref, table);
      BoundaryIsDropped(v, ref, s);
    }
  }

  /** The first comment beyond the cap is dropped: no other has its identifier. */
  lemma BoundaryIsDropped(v: Model, ref: Ref, s: Slot)
    requires |Ranked(v, ref, Comments)| > MAX_PER_ITEM && s == Ranked(v, ref, Comments)[MAX_PER_ITEM] && s in v.rows
    requires s.Comment? && s.ref == ref
    ensures s !in Cap(v, ref, Comments).rows
  {
    hide Ranked;
    RankedFacts(v, ref, Comments);
    KeptExactlyWhen(v, s);
  }

  /** One write of an item: unless it is older, or as old and unconfirmed, the item takes its time and
      keeps what it does not mention; a retired one stays empty until a repair confirms it. */
  lemma ItemWriteIsExact(m: Model, o: Object, receivedAt: int, confirmed: bool, f: string)
    requires o.slot.Item?
    ensures var s := o.slot;
            var u := UpsertItem(m, o, receivedAt, confirmed);
            var taken := s in m.rows ==> o.sourceAt > m.rows[s].sourceAt || (o.sourceAt == m.rows[s].sourceAt && confirmed);
            var retired := s in m.rows && m.rows[s].pruned && !confirmed;
            && (!taken ==> u == m)
            && (taken ==>
                  && s in u.rows && u.rows == m.rows[s := u.rows[s]] && u.collections == m.collections
                  && u.rows[s] == Row(if s in m.rows then m.rows[s].rowid else m.next, o.sourceAt, false, u.rows[s].snapshot, receivedAt,
                                      retired, receivedAt + 1800000)
                  && (f in u.rows[s].snapshot <==>
                        !retired && ((s in m.rows && f in m.rows[s].snapshot) || f in o.snapshot || (o.pull && f == "pull_request")))
                  && (f in u.rows[s].snapshot ==>
                        u.rows[s].snapshot[f] == if f in o.snapshot then o.snapshot[f]
                                                 else if s in m.rows && f in m.rows[s].snapshot then m.rows[s].snapshot[f]
                                                 else Text("{}", false)))
  {
  }

  function Censused(r: Row, s: Slot, ref: Ref, live: set<int>, now: int): Row {
    if s.Comment? && s.ref == ref && !r.tombstone && s.id !in live then Row(r.rowid, now, true, TOMBSTONE, now, false, 0)
    else if s == Item(ref) && r.retireAt == -1 then r.(retireAt := 0)
    else r
  }

  /** A census buries the live comments of its item that it does not list, at its own time, lets the item
      be looked at again, and is put down as complete. */
  lemma CensusIsExact(m: Model, ref: Ref, live: set<int>, now: int, s: Slot)
    ensures var u := Census(m, ref, live, now);
            && u.rows.Keys == m.rows.Keys && u.next == m.next && u.collections == m.collections[ref := Collection(now, true)]
            && (s in m.rows ==> u.rows[s] == Censused(m.rows[s], s, ref, live, now))
  {
  }

  /** What a repair confirms it writes; a placeholder poll keeps no body of a comment that is none. */
  lemma ConfirmedWriteIsExact(m: Model, kind: RepairKind, o: Object, now: int)
    requires !o.slot.Item?
    ensures var u := Confirm(m, kind, [o], now);
            var retired := kind.PlaceholderRepair? && o.slot.Comment? && !o.tombstone
                           && !("body" in o.snapshot && o.snapshot["body"].marked);
            o.slot in u.rows ==>
              u.rows[o.slot] == if IsTaken(m, o, true) then Written(m, o, now, retired) else m.rows[o.slot]
  {
    hide Upsert;
    assert [o][1..] == [];
    assert Confirm(m, kind, [o], now) == Confirm(Upsert(m, o, now, true, Retires(kind, o)), kind, [], now);
    WriteIsExact(m, o, now, true, Retires(kind, o));
  }

  // ----- whole runs -----

  /** The content of the first delivery of one version of an object. */
  function FirstWith(q: seq<Object>, s: Slot, v: Stamp): Option<Snapshot> {
    if q == [] then None
    else
      var first := FirstWith(q[..|q| - 1], s, v);
      if first.Some? then first
      else if q[|q| - 1].slot == s && VersionOf(q[|q| - 1]) == v then Some(q[|q| - 1].snapshot)
      else None
  }

  lemma FirstAppends(p: seq<Object>, o: Object, s: Slot, v: Stamp)
    ensures FirstWith(p + [o], s, v) ==
            if FirstWith(p, s, v).Some? then FirstWith(p, s, v) else if o.slot == s && VersionOf(o) == v then Some(o.snapshot) else None
  {
    assert (p + [o])[..|p|] == p;
  }

  lemma {:induction false} FirstIsDelivered(q: seq<Object>, s: Slot, v: Stamp)
    ensures FirstWith(q, s, v).Some? <==> Delivers(q, s, v)
    ensures FirstWith(q, s, v).Some? ==> exists o | o in q :: o.slot == s && VersionOf(o) == v && o.snapshot == FirstWith(q, s, v).value
  {
    if q != [] {
      var init, last := q[..|q| - 1], q[|q| - 1];
      FirstIsDelivered(init, s, v);
      assert q == init + [last];
      assert last in q && forall o | o in init :: o in q;
    }
  }

  /** What an object holds after some deliveries: what it had, while nothing newer came; or the first
      content of the greatest version. */
  function Content(start: Model, q: seq<Object>, s: Slot): Option<Snapshot> {
    var latest := Later(StampOf(start, s), Latest(q, s));
    if latest.None? then None
    else if s in start.rows && StampOf(start, s) == latest then Some(start.rows[s].snapshot)
    else FirstWith(q, s, latest.value)
  }

  ghost predicate Holds(m: Model, start: Model, q: seq<Object>, s: Slot) {
    && StampOf(m, s) == Later(StampOf(start, s), Latest(q, s))
    && (s in m.rows && !m.rows[s].pruned ==> Some(m.rows[s].snapshot) == Content(start, q, s))
  }

  lemma WriteHolds(m: Model, o: Object, receivedAt: int, universe: set<Slot>, s: Slot, start: Model, before: seq<Object>)
    requires Fits(m, universe) && o.slot in universe && !s.Item? && Holds(m, start, before, s)
    ensures var u := Upsert(m, o, receivedAt, false, false);
            Fits(u, universe) && Holds(u, start, before + [o], s)
  {
    hide Upsert, Fits, Latest, FirstWith;
    UpsertConverges(m, o, receivedAt, universe, s);
    LatestAppends(before, o, s);
    var u := Upsert(m, o, receivedAt, false, false);
    if !o.slot.Item? { WriteIsExact(m, o, receivedAt, false, false); } else { ItemTouchesNothing(m, o, receivedAt, s); }
    LatestIsGreatest(before, s);
    var latest := StampOf(u, s);
    if latest.Some? {
      FirstAppends(before, o, s, latest.value);
      FirstIsDelivered(before, s, latest.value);
    }
  }

  lemma ItemTouchesNothing(m: Model, o: Object, receivedAt: int, s: Slot)
    requires o.slot.Item? && !s.Item?
    ensures var u := Upsert(m, o, receivedAt, false, false);
            (s in u.rows <==> s in m.rows) && (s in m.rows ==> u.rows[s] == m.rows[s])
  {
    hide WithKind;
  }

  lemma {:induction false} DeliverHolds(m: Model, q: seq<Object>, receivedAt: int, universe: set<Slot>, s: Slot, start: Model,
                                        before: seq<Object>)
    requires Fits(m, universe) && (forall o | o in q :: o.slot in universe) && !s.Item? && Holds(m, start, before, s)
    ensures var u := Deliver(m, q, receivedAt);
            Fits(u, universe) && Holds(u, start, before + q, s)
    decreases |q|
  {
    hide Fits, Upsert, Holds;
    if q == [] {
      assert before + q == before;
    } else {
      assert q[0] in q;
      WriteHolds(m, q[0], receivedAt, universe, s, start, before);
      assert before + [q[0]] + q[1..] == before + q;
      DeliverHolds(Upsert(m, q[0], receivedAt, false, false), q[1..], receivedAt, universe, s, start, before + [q[0]]);
    }
  }

  lemma PassHolds(m: Model, now: int, universe: set<Slot>, s: Slot, start: Model, q: seq<Object>)
    requires RowidsDistinct(m) && now >= 0 && Fits(m, universe) && Holds(m, start, q, s)
    ensures Fits(PrunePayloads(m, now).model, universe) && Holds(PrunePayloads(m, now).model, start, q, s)
  {
    hide AllDue, RowidsDistinct, PrunePayloads, Protected, Idle, Content, Latest, Fits;
    PassScansTheDue(m, now);
    PassKeepsStamps(m, now, universe, s);
    if s in m.rows { assert RowRetires(m, PrunePayloads(m, now).model, s, now); }
  }

  /** Below the row cap and without repairs no content is lost or invented: an object that is not
      retired holds the content of the first delivery of its greatest version. */
  lemma {:induction false} RunsHoldTheNewest(h: seq<Model>, evs: seq<Event>, universe: set<Slot>, s: Slot, n: nat)
    requires Run(h, evs) && Inv(h[0]) && NoRepairs(evs) && Fits(h[0], universe) && n <= |evs| && !s.Item?
    requires forall o | o in Objects(evs[..n]) :: o.slot in universe
    ensures Fits(h[n], universe) && Holds(h[n], h[0], Objects(evs[..n]), s)
    decreases n
  {
    hide Inv, Fits, Deliver, PrunePayloads, RowidsDistinct, Repair, Holds;
    if n == 0 {
      assert evs[..0] == [] && Objects(evs[..0]) == [];
      HoldsAtStart(h[0], s);
    } else {
      var ev := evs[n - 1];
      assert evs[..n][..n - 1] == evs[..n - 1] && ev in evs;
      assert Objects(evs[..n]) == Objects(evs[..n - 1]) + if ev.Delivered? then ev.objects else [];
      RunsHoldTheNewest(h, evs, universe, s, n - 1);
      RunKeeps(h, evs, n - 1);
      InvIsRowids(h[n - 1]);
      if ev.Delivered? {
        DeliverHolds(h[n - 1], ev.objects, ev.receivedAt, universe, s, h[0], Objects(evs[..n - 1]));
      } else {
        PassHolds(h[n - 1], ev.now, universe, s, h[0], Objects(evs[..n - 1]));
        assert Objects(evs[..n - 1]) + [] == Objects(evs[..n - 1]);
      }
    }
  }

  lemma HoldsAtStart(m: Model, s: Slot)
    ensures Holds(m, m, [], s)
  {
  }

  /** Where each version of an object has one content, two runs that were delivered the same versions
      show the same content wherever both still hold it. */
  lemma ContentsConverge(h: seq<Model>, evs: seq<Event>, g: seq<Model>, others: seq<Event>, universe: set<Slot>, s: Slot)
    requires Run(h, evs) && Run(g, others) && h[0] == g[0] && Inv(h[0])
    requires NoRepairs(evs) && NoRepairs(others) && Fits(h[0], universe) && !s.Item?
    requires forall o | o in Objects(evs) :: o.slot in universe
    requires forall o | o in Objects(others) :: o.slot in universe
    requires forall v: Stamp :: Delivers(Objects(evs), s, v) <==> Delivers(Objects(others), s, v)
    requires forall o, p | o in Objects(evs) && p in Objects(others) && o.slot == s && p.slot == s && VersionOf(o) == VersionOf(p) ::
               o.snapshot == p.snapshot
    ensures |h| == |evs| + 1 && |g| == |others| + 1
    ensures var a, b := h[|evs|], g[|others|];
            && (s in a.rows <==> s in b.rows)
            && (s in a.rows && !a.rows[s].pruned && !b.rows[s].pruned ==> a.rows[s].snapshot == b.rows[s].snapshot)
  {
    hide Inv, Fits, Latest, Step, NoRepairs, Delivers, Objects, FirstWith;
    assert evs[..|evs|] == evs && others[..|others|] == others;
    RunsHoldTheNewest(h, evs, universe, s, |evs|);
    RunsHoldTheNewest(g, others, universe, s, |others|);
    OrderDoesNotMatter(Objects(evs), Objects(others), s);
    var latest := StampOf(h[|evs|], s);
    if latest.Some? {
      FirstIsDelivered(Objects(evs), s, latest.value);
      FirstIsDelivered(Objects(others), s, latest.value);
    }
  }
}

/** A deleted comment or review stays dead over whole runs of deliveries, repairs and passes, also
    after the row cap has forgotten its tombstone; and the two ways in which one can return. */
module WebhookTombstones {
  import opened Ordering
  import opened WebhookReadModel
  import opened WebhookRetirement
  import opened WebhookSafety
  import opened WebhookConvergence

  predicate SameTable(r: Slot, s: Slot) { r.ref == s.ref && TableOf(r) == TableOf(s) }

  /** The other kind of activity under the same identifier. */
  predicate Twins(r: Slot, s: Slot) { r != s && SameTable(r, s) && IdOf(r) == IdOf(s) }

  /** The rows of the object's table that rank above it, were its source time `at`. */
  function Above(m: Model, s: Slot, at: int): set<Slot> {
    set r | r in m.rows && SameTable(r, s) && Higher(m.rows[r].sourceAt, IdOf(r), at, IdOf(s))
  }

  predicate Higher(at: int, id: int, boundAt: int, boundId: int) {
    boundAt < at || (boundAt == at && boundId < id)
  }

  /** A tombstone at or after `at`; or, where the cap has dropped it, a full table above it. */
  ghost predicate Dead(m: Model, s: Slot, at: int) {
    if s in m.rows then m.rows[s].tombstone && at <= m.rows[s].sourceAt else |Above(m, s, at)| >= MAX_PER_ITEM
  }

  ghost predicate Alone(m: Model, s: Slot) { forall r | r in m.rows :: !Twins(r, s) }

  // ----- the row cap -----

  lemma RankedHigher(m: Model, ref: Ref, table: Table, i: nat, j: nat)
    requires i < j < |Ranked(m, ref, table)|
    ensures var q := Ranked(m, ref, table);
            && q[i] in m.rows && q[j] in m.rows && q[i] != q[j] && SameTable(q[i], q[j])
            && q[i].ref == ref && TableOf(q[i]) == table
            && (Higher(m.rows[q[i]].sourceAt, IdOf(q[i]), m.rows[q[j]].sourceAt, IdOf(q[j]))
                || (m.rows[q[i]].sourceAt == m.rows[q[j]].sourceAt && IdOf(q[i]) == IdOf(q[j])))
  {
    hide Ranked;
    RankedFacts(m, ref, table);
    assert Ranked(m, ref, table)[i] in Ranked(m, ref, table) && Ranked(m, ref, table)[j] in Ranked(m, ref, table);
  }

  lemma TopIsDistinct(m: Model, ref: Ref, table: Table, n: nat)
    requires n <= |Ranked(m, ref, table)|
    ensures |Members(Ranked(m, ref, table)[..n])| == n
  {
    hide Ranked, Members;
    var top := Ranked(m, ref, table)[..n];
    forall i, j | 0 <= i < j < n ensures top[i] != top[j] { RankedHigher(m, ref, table, i, j); }
    DistinctMembers(top);
  }

  lemma AboveIsRanked(m: Model, s: Slot, at: int)
    ensures forall r | r in Above(m, s, at) :: r in Ranked(m, s.ref, TableOf(s))
  {
    hide Ranked;
    RankedFacts(m, s.ref, TableOf(s));
  }

  /** With so many rows above, the first so many ranked rows are all above. */
  lemma TopIsAbove(m: Model, s: Slot, at: int, n: nat)
    requires |Above(m, s, at)| >= n
    ensures var q := Ranked(m, s.ref, TableOf(s));
            |q| >= n && forall i | 0 <= i < n :: q[i] in Above(m, s, at)
  {
    hide Ranked, Members;
    var q := Ranked(m, s.ref, TableOf(s));
    var above := Above(m, s, at);
    AboveIsRanked(m, s, at);
    assert above <= Members(q) by { InMembers(above, q); }
    SubsetSize(above, Members(q));
    FewMembers(q);
    forall i | 0 <= i < n ensures q[i] in above {
      if q[i] !in above {
        forall r | r in above ensures r in q[..i] {
          var j :| 0 <= j < |q| && q[j] == r;
          if i < j { RankedHigher(m, s.ref, TableOf(s), i, j); }
          assert j < i;
          assert q[..i][j] == r;
        }
        InMembers(above, q[..i]);
        SubsetSize(above, Members(q[..i]));
        FewMembers(q[..i]);
      }
    }
  }

  lemma InMembers(a: set<Slot>, q: seq<Slot>)
    requires forall r | r in a :: r in q
    ensures a <= Members(q)
  {
  }

  /** Over the cap, the first rows stay. */
  lemma TopStays(m: Model, ref: Ref, table: Table, r: Slot)
    requires |Ranked(m, ref, table)| > MAX_PER_ITEM && r in Ranked(m, ref, table)[..MAX_PER_ITEM]
    ensures r in m.rows && r in Cap(m, ref, table).rows && Cap(m, ref, table).rows[r] == m.rows[r]
  {
    hide Ranked;
    RankedFacts(m, ref, table);
    assert r in Ranked(m, ref, table);
  }

  /** Over the cap a row stays iff it, or a twin, is among the first. */
  lemma KeptExactlyWhen(m: Model, s: Slot)
    requires s in m.rows && !s.Item? && |Ranked(m, s.ref, TableOf(s))| > MAX_PER_ITEM
    ensures s in Cap(m, s.ref, TableOf(s)).rows <==> IdOf(s) in Ids(Ranked(m, s.ref, TableOf(s))[..MAX_PER_ITEM])
  {
    hide Ranked;
    var q := Ranked(m, s.ref, TableOf(s));
    RankedFacts(m, s.ref, TableOf(s));
    assert s in q;
    var i :| 0 <= i < |q| && q[i] == s;
    if i < MAX_PER_ITEM {
      assert q[..MAX_PER_ITEM][i] == s;
    } else if MAX_PER_ITEM < i {
      RankedHigher(m, s.ref, TableOf(s), MAX_PER_ITEM, i);
    }
  }

  lemma CapKeepsDead(v: Model, s: Slot, at: int)
    requires !s.Item? && Alone(v, s)
    requires || (s in v.rows && v.rows[s].tombstone && at <= v.rows[s].sourceAt)
             || (s !in Above(v, s, at) && |Above(v, s, at)| >= MAX_PER_ITEM)
    ensures Dead(Cap(v, s.ref, TableOf(s)), s, at)
  {
    hide Ranked, Above, Cap, Members;
    var q := Ranked(v, s.ref, TableOf(s));
    var u := Cap(v, s.ref, TableOf(s));
    if |q| <= MAX_PER_ITEM {
      UnderTheCap(v, s, at);
    } else {
      var top := q[..MAX_PER_ITEM];
      CapElsewhere(v, s.ref, TableOf(s));
      if s !in u.rows {
        forall r | r in top ensures r in Above(u, s, at) {
          TopStays(v, s.ref, TableOf(s), r);
          TopOutranks(v, s, at, r);
        }
        InMembersOf(top, Above(u, s, at));
        SubsetSize(Members(top), Above(u, s, at));
        TopIsDistinct(v, s.ref, TableOf(s), MAX_PER_ITEM);
      } else {
        KeptIsTombstone(v, s, at);
      }
    }
  }

  lemma InMembersOf(q: seq<Slot>, a: set<Slot>)
    requires forall r | r in q :: r in a
    ensures Members(q) <= a
  {
  }

  /** Under the cap nothing moves, and a row below a full table cannot be there. */
  lemma UnderTheCap(v: Model, s: Slot, at: int)
    requires !s.Item? && |Ranked(v, s.ref, TableOf(s))| <= MAX_PER_ITEM
    requires || (s in v.rows && v.rows[s].tombstone && at <= v.rows[s].sourceAt)
             || (s !in Above(v, s, at) && |Above(v, s, at)| >= MAX_PER_ITEM)
    ensures Cap(v, s.ref, TableOf(s)) == v && Dead(v, s, at)
  {
    hide Ranked, Above, Members;
    var q := Ranked(v, s.ref, TableOf(s));
    if s !in Above(v, s, at) && |Above(v, s, at)| >= MAX_PER_ITEM && s in v.rows {
      RankedFacts(v, s.ref, TableOf(s));
      AboveIsRanked(v, s, at);
      InMembers(Above(v, s, at) + {s}, q);
      SubsetSize(Above(v, s, at) + {s}, Members(q));
      FewMembers(q);
    }
  }

  /** Where the cap drops `s`, or it is gone already, every kept row ranks above it. */
  lemma TopOutranks(v: Model, s: Slot, at: int, r: Slot)
    requires !s.Item? && Alone(v, s) && |Ranked(v, s.ref, TableOf(s))| > MAX_PER_ITEM
    requires || (s in v.rows && v.rows[s].tombstone && at <= v.rows[s].sourceAt)
             || (s !in Above(v, s, at) && |Above(v, s, at)| >= MAX_PER_ITEM)
    requires s !in Cap(v, s.ref, TableOf(s)).rows
    requires r in Ranked(v, s.ref, TableOf(s))[..MAX_PER_ITEM] && r in Cap(v, s.ref, TableOf(s)).rows
    requires Cap(v, s.ref, TableOf(s)).rows[r] == v.rows[r]
    ensures r in v.rows && r in Above(Cap(v, s.ref, TableOf(s)), s, at)
  {
    hide Ranked, Cap;
    var q := Ranked(v, s.ref, TableOf(s));
    RankedFacts(v, s.ref, TableOf(s));
    var k :| 0 <= k < MAX_PER_ITEM && q[..MAX_PER_ITEM][k] == r;
    assert r in q;
    if s !in Above(v, s, at) && |Above(v, s, at)| >= MAX_PER_ITEM {
      TopIsAbove(v, s, at, MAX_PER_ITEM);
    } else {
      assert s in q;
      var i :| 0 <= i < |q| && q[i] == s;
      if i < MAX_PER_ITEM {
        assert q[..MAX_PER_ITEM][i] == s;
        TopStays(v, s.ref, TableOf(s), s);
      }
      RankedHigher(v, s.ref, TableOf(s), k, i);
      assert !Twins(r, s);
    }
  }

  /** Below a full table a row without a twin goes. */
  lemma FullTableDrops(v: Model, s: Slot, at: int)
    requires !s.Item? && Alone(v, s) && |Ranked(v, s.ref, TableOf(s))| > MAX_PER_ITEM
    requires s in v.rows && s !in Above(v, s, at) && |Above(v, s, at)| >= MAX_PER_ITEM
    ensures s !in Cap(v, s.ref, TableOf(s)).rows
  {
    hide Ranked, Cap;
    var q := Ranked(v, s.ref, TableOf(s));
    TopIsAbove(v, s, at, MAX_PER_ITEM);
    KeptExactlyWhen(v, s);
    forall t | t in q[..MAX_PER_ITEM] ensures IdOf(t) != IdOf(s) {
      var k :| 0 <= k < MAX_PER_ITEM && q[..MAX_PER_ITEM][k] == t;
      assert q[k] == t && t in Above(v, s, at);
      assert !Twins(t, s);
    }
  }

  /** A row the cap keeps was a tombstone: below a full table it would have gone. */
  lemma KeptIsTombstone(v: Model, s: Slot, at: int)
    requires !s.Item? && Alone(v, s) && |Ranked(v, s.ref, TableOf(s))| > MAX_PER_ITEM
    requires || (s in v.rows && v.rows[s].tombstone && at <= v.rows[s].sourceAt)
             || (s !in Above(v, s, at) && |Above(v, s, at)| >= MAX_PER_ITEM)
    requires s in Cap(v, s.ref, TableOf(s)).rows
    ensures Dead(Cap(v, s.ref, TableOf(s)), s, at)
  {
    hide Ranked, Cap;
    CapElsewhere(v, s.ref, TableOf(s));
    if s !in Above(v, s, at) && |Above(v, s, at)| >= MAX_PER_ITEM {
      FullTableDrops(v, s, at);
    }
  }

  // ----- one write -----

  lemma SameTableKeepsDead(m: Model, u: Model, s: Slot, at: int)
    requires Dead(m, s, at) && Alone(m, s)
    requires forall r: Slot | SameTable(r, s) :: r in u.rows <==> r in m.rows
    requires forall r | r in m.rows && SameTable(r, s) :: SameStamp(m.rows[r], u.rows[r])
    ensures Dead(u, s, at) && Alone(u, s)
  {
    assert Above(u, s, at) == Above(m, s, at);
  }

  /** A write of an older or equal time, or of another object, leaves a dead one dead, whether its
      tombstone is still there or not. */
  lemma UpsertKeepsDead(m: Model, o: Object, receivedAt: int, confirmed: bool, retire: bool, s: Slot, at: int)
    requires !s.Item? && Dead(m, s, at) && Alone(m, s) && !Twins(o.slot, s)
    requires o.slot == s ==> o.sourceAt <= at
    ensures Dead(Upsert(m, o, receivedAt, confirmed, retire), s, at) && Alone(Upsert(m, o, receivedAt, confirmed, retire), s)
  {
    hide Cap, Dead, Alone, WithKind, Marked, Above;
    var u := Upsert(m, o, receivedAt, confirmed, retire);
    var v := BeforeCap(m, o, receivedAt, confirmed, retire);
    UpsertIsCapped(m, o, receivedAt, confirmed, retire);
    hide Upsert;
    if SameTable(o.slot, s) {
      WrittenKeepsDead(m, o, receivedAt, confirmed, retire, s, at);
      CapKeepsDead(v, s, at);
      CapElsewhere(v, s.ref, TableOf(s));
      FewerStayAlone(v, u, s);
    } else {
      OtherTableUntouched(m, o, receivedAt, confirmed, retire, s);
      SameTableKeepsDead(m, u, s, at);
    }
  }

  lemma FewerStayAlone(v: Model, u: Model, s: Slot)
    requires Alone(v, s) && forall r | r in u.rows :: r in v.rows
    ensures Alone(u, s)
  {
  }

  /** The state of a write before its table is capped. */
  function BeforeCap(m: Model, o: Object, receivedAt: int, confirmed: bool, retire: bool): Model {
    if o.slot.Item? then UpsertItem(m, o, receivedAt, confirmed)
    else if !Taken(m, o, confirmed) then m
    else if o.slot.Comment? then
      var w := Insert(m, o.slot, NewRow(m, o, receivedAt, retire));
      Recheck(if retire then Incomplete(w, o.slot.ref) else w, o.slot.ref)
    else Insert(m, o.slot, NewRow(m, o, receivedAt, false))
  }

  lemma UpsertIsCapped(m: Model, o: Object, receivedAt: int, confirmed: bool, retire: bool)
    ensures var v := BeforeCap(m, o, receivedAt, confirmed, retire);
            Upsert(m, o, receivedAt, confirmed, retire) == if o.slot.Item? then v else Cap(v, o.slot.ref, TableOf(o.slot))
  {
    hide Cap, WithKind;
  }

  /** What a write does to the rows of its table, other than retirement times. */
  ghost predicate WritesOnly(m: Model, v: Model, o: Object, taken: bool) {
    && (forall r | r in m.rows :: r in v.rows && (r != o.slot ==> SameStamp(m.rows[r], v.rows[r])))
    && (forall r | r in v.rows :: r in m.rows || r == o.slot)
    && (!o.slot.Item? && taken ==> o.slot in v.rows && v.rows[o.slot].sourceAt == o.sourceAt && v.rows[o.slot].tombstone == o.tombstone)
    && (!o.slot.Item? && !taken ==> v == m)
  }

  lemma BeforeCapRows(m: Model, o: Object, receivedAt: int, confirmed: bool, retire: bool)
    ensures WritesOnly(m, BeforeCap(m, o, receivedAt, confirmed, retire), o, Taken(m, o, confirmed))
  {
    hide Supersedes, Recheck, Incomplete, UpsertItem, WritesOnly, Insert, NewRow;
    if o.slot.Item? {
      ItemRows(m, o, receivedAt, confirmed);
      ItemWrites(m, UpsertItem(m, o, receivedAt, confirmed), o, Taken(m, o, confirmed));
    } else if !Taken(m, o, confirmed) {
      NothingWritten(m, o);
    } else {
      var w := Insert(m, o.slot, NewRow(m, o, receivedAt, retire));
      InsertedRows(m, o, receivedAt, retire);
      if o.slot.Comment? {
        IncompleteRows(w, o.slot.ref);
        var x := if retire then Incomplete(w, o.slot.ref) else w;
        RecheckedRows(x, o.slot.ref);
        RetimedRows(m, w, Recheck(x, o.slot.ref), o);
      } else {
        InsertedRows(m, o, receivedAt, false);
      }
    }
  }

  lemma ItemWrites(m: Model, v: Model, o: Object, taken: bool)
    requires o.slot.Item?
    requires forall r | r in m.rows :: r in v.rows && (r != o.slot ==> v.rows[r] == m.rows[r])
    requires forall r | r in v.rows :: r in m.rows || r == o.slot
    ensures WritesOnly(m, v, o, taken)
  {
  }

  lemma NothingWritten(m: Model, o: Object)
    ensures WritesOnly(m, m, o, false)
  {
  }

  lemma InsertedRows(m: Model, o: Object, receivedAt: int, retire: bool)
    ensures WritesOnly(m, Insert(m, o.slot, NewRow(m, o, receivedAt, retire)), o, true)
  {
  }

  lemma RetimedRows(m: Model, w: Model, v: Model, o: Object)
    requires WritesOnly(m, w, o, true) && v.rows.Keys == w.rows.Keys && forall r | r in w.rows :: SameStamp(w.rows[r], v.rows[r])
    ensures WritesOnly(m, v, o, true)
  {
  }

  lemma ItemRows(m: Model, o: Object, receivedAt: int, confirmed: bool)
    requires o.slot.Item?
    ensures var v := UpsertItem(m, o, receivedAt, confirmed);
            && (forall r | r in m.rows :: r in v.rows && (r != o.slot ==> v.rows[r] == m.rows[r]))
            && (forall r | r in v.rows :: r in m.rows || r == o.slot)
  {
    hide WithKind;
  }

  lemma RecheckedRows(m: Model, ref: Ref)
    ensures var v := Recheck(m, ref);
            v.rows.Keys == m.rows.Keys && forall r | r in m.rows :: SameStamp(m.rows[r], v.rows[r])
  {
  }

  lemma IncompleteRows(m: Model, ref: Ref)
    ensures Incomplete(m, ref).rows == m.rows
  {
  }

  lemma OtherTableUntouched(m: Model, o: Object, receivedAt: int, confirmed: bool, retire: bool, s: Slot)
    requires !SameTable(o.slot, s)
    ensures var u := Upsert(m, o, receivedAt, confirmed, retire);
            && (forall r: Slot | SameTable(r, s) :: r in u.rows <==> r in m.rows)
            && (forall r | r in m.rows && SameTable(r, s) :: SameStamp(m.rows[r], u.rows[r]))
  {
    hide Upsert, BeforeCap, Cap, Taken;
    var v := BeforeCap(m, o, receivedAt, confirmed, retire);
    UpsertIsCapped(m, o, receivedAt, confirmed, retire);
    BeforeCapRows(m, o, receivedAt, confirmed, retire);
    CapElsewhere(v, o.slot.ref, TableOf(o.slot));
  }

  lemma WrittenKeepsDead(m: Model, o: Object, receivedAt: int, confirmed: bool, retire: bool, s: Slot, at: int)
    requires !s.Item? && Dead(m, s, at) && Alone(m, s) && SameTable(o.slot, s) && !Twins(o.slot, s)
    requires o.slot == s ==> o.sourceAt <= at
    ensures var v := BeforeCap(m, o, receivedAt, confirmed, retire);
            && Alone(v, s)
            && (|| (s in v.rows && v.rows[s].tombstone && at <= v.rows[s].sourceAt)
                || (s !in Above(v, s, at) && |Above(v, s, at)| >= MAX_PER_ITEM))
  {
    hide BeforeCap;
    var v := BeforeCap(m, o, receivedAt, confirmed, retire);
    BeforeCapRows(m, o, receivedAt, confirmed, retire);
    if s !in m.rows {
      assert Above(m, s, at) <= Above(v, s, at);
      SubsetSize(Above(m, s, at), Above(v, s, at));
    }
  }

  // ----- one repair, delivery or pass -----

  /** What may be written in a step: no later version of the object, and no twin of it. */
  ghost predicate Leaves(q: seq<Object>, s: Slot, at: int) {
    forall o | o in q :: !Twins(o.slot, s) && (o.slot == s ==> o.sourceAt <= at)
  }

  lemma {:induction false} DeliverKeepsDead(m: Model, q: seq<Object>, receivedAt: int, s: Slot, at: int)
    requires !s.Item? && Dead(m, s, at) && Alone(m, s) && Leaves(q, s, at)
    ensures Dead(Deliver(m, q, receivedAt), s, at) && Alone(Deliver(m, q, receivedAt), s)
    decreases |q|
  {
    hide Upsert, Dead, Alone;
    if q != [] {
      assert q[0] in q;
      UpsertKeepsDead(m, q[0], receivedAt, false, false, s, at);
      DeliverKeepsDead(Upsert(m, q[0], receivedAt, false, false), q[1..], receivedAt, s, at);
    }
  }

  lemma {:induction false} ConfirmKeepsDead(m: Model, kind: RepairKind, q: seq<Object>, now: int, s: Slot, at: int)
    requires !s.Item? && Dead(m, s, at) && Alone(m, s) && Leaves(q, s, at)
    ensures Dead(Confirm(m, kind, q, now), s, at) && Alone(Confirm(m, kind, q, now), s)
    decreases |q|
  {
    hide Upsert, Dead, Alone, Retires;
    if q != [] {
      assert q[0] in q;
      UpsertKeepsDead(m, q[0], now, true, Retires(kind, q[0]), s, at);
      ConfirmKeepsDead(Upsert(m, q[0], now, true, Retires(kind, q[0])), kind, q[1..], now, s, at);
    }
  }

  /** The source time a census leaves a row with: its own time where it buries a comment. */
  function CensusedAt(m: Model, r: Slot, live: set<int>, now: int): int
    requires r in m.rows
  {
    if r.Comment? && !m.rows[r].tombstone && r.id !in live then now else m.rows[r].sourceAt
  }

  /** The rows that rank above the object once its item's census is taken. */
  function StillAbove(m: Model, s: Slot, at: int, live: set<int>, now: int): set<Slot> {
    set r | r in m.rows && SameTable(r, s) && Higher(CensusedAt(m, r, live, now), IdOf(r), at, IdOf(s))
  }

  lemma CensusRanks(m: Model, ref: Ref, live: set<int>, now: int, s: Slot, at: int)
    requires !s.Item?
    ensures var u := Census(m, ref, live, now);
            && u.rows.Keys == m.rows.Keys
            && (ref == s.ref ==> Above(u, s, at) == StillAbove(m, s, at, live, now)
                                 && StillAbove(u, s, at, live, now) == StillAbove(m, s, at, live, now))
            && (s in m.rows && m.rows[s].tombstone ==> SameStamp(m.rows[s], u.rows[s]))
  {
  }

  lemma CensusElsewhere(m: Model, ref: Ref, live: set<int>, now: int, s: Slot, at: int, others: set<int>)
    requires !s.Item? && ref != s.ref
    ensures var u := Census(m, ref, live, now);
            Above(u, s, at) == Above(m, s, at) && StillAbove(u, s, at, others, now) == StillAbove(m, s, at, others, now)
  {
  }

  lemma {:induction false} CensusesRank(m: Model, refs: seq<Ref>, q: seq<Object>, now: int, s: Slot, at: int)
    requires !s.Item?
    ensures var u := Censuses(m, refs, q, now);
            && u.rows.Keys == m.rows.Keys
            && Above(u, s, at) == (if s.ref in refs then StillAbove(m, s, at, LiveIds(q, s.ref), now) else Above(m, s, at))
            && (s in m.rows && m.rows[s].tombstone ==> SameStamp(m.rows[s], u.rows[s]))
    decreases |refs|
  {
    hide Census, Above, StillAbove, LiveIds;
    if refs != [] {
      var v := Census(m, refs[0], LiveIds(q, refs[0]), now);
      CensusRanks(m, refs[0], LiveIds(q, refs[0]), now, s, at);
      if refs[0] != s.ref { CensusElsewhere(m, refs[0], LiveIds(q, refs[0]), now, s, at, LiveIds(q, s.ref)); }
      CensusesRank(v, refs[1..], q, now, s, at);
    }
  }

  /** Censuses keep a dead comment dead exactly when its tombstone is held, or the cap's number of
      rows still ranks above it. */
  lemma CensusesKeepDeadExactlyWhen(m: Model, refs: seq<Ref>, q: seq<Object>, now: int, s: Slot, at: int)
    requires !s.Item? && Dead(m, s, at) && s.ref in refs
    ensures Dead(Censuses(m, refs, q, now), s, at) <==>
              s in m.rows || |StillAbove(m, s, at, LiveIds(q, s.ref), now)| >= MAX_PER_ITEM
  {
    hide Censuses, Above, StillAbove, LiveIds;
    CensusesRank(m, refs, q, now, s, at);
  }

  /** A census later than the tombstone only lifts what it buries; one of comments leaves activities. */
  lemma LaterCensusesLift(m: Model, s: Slot, at: int, live: set<int>, now: int)
    requires s.Comment? ==> at < now
    ensures |Above(m, s, at)| <= |StillAbove(m, s, at, live, now)|
  {
    assert Above(m, s, at) <= StillAbove(m, s, at, live, now);
    SubsetSize(Above(m, s, at), StillAbove(m, s, at, live, now));
  }

  /** What a census may do to a dead comment, told from the state before it. */
  ghost predicate Spares(m: Model, q: seq<Object>, now: int, s: Slot, at: int) {
    at < now || s in m.rows || |StillAbove(m, s, at, LiveIds(q, s.ref), now)| >= MAX_PER_ITEM
  }

  lemma CensusesKeepDead(m: Model, refs: seq<Ref>, q: seq<Object>, now: int, s: Slot, at: int)
    requires !s.Item? && Dead(m, s, at) && Alone(m, s) && (s.Comment? && s.ref in refs ==> Spares(m, q, now, s, at))
    ensures Dead(Censuses(m, refs, q, now), s, at) && Alone(Censuses(m, refs, q, now), s)
  {
    hide Censuses, Above, StillAbove, LiveIds;
    CensusesRank(m, refs, q, now, s, at);
    if s.Activity? || at < now { LaterCensusesLift(m, s, at, LiveIds(q, s.ref), now); }
  }

  lemma PassKeepsDead(m: Model, now: int, s: Slot, at: int)
    requires RowidsDistinct(m) && now >= 0 && Dead(m, s, at) && Alone(m, s)
    ensures Dead(PrunePayloads(m, now).model, s, at) && Alone(PrunePayloads(m, now).model, s)
  {
    hide AllDue, RowidsDistinct, PrunePayloads, Protected, Idle, Dead, Alone;
    PassScansTheDue(m, now);
    var u := PrunePayloads(m, now).model;
    forall r | r in m.rows ensures SameStamp(m.rows[r], u.rows[r]) { assert RowRetires(m, u, r, now); }
    SameTableKeepsDead(m, u, s, at);
  }

  // ----- whole runs -----

  /** An event that neither writes a later version or a twin of the object, nor dates down the rows
      above a dropped comment by a census taken too early. */
  ghost predicate Quiet(m: Model, ev: Event, s: Slot, at: int) {
    match ev
    case Delivered(objects, _) => Leaves(objects, s, at)
    case Repaired(_, objects, refs, now) => Leaves(objects, s, at) && (s.Comment? && s.ref in refs ==> Spares(m, objects, now, s, at))
    case Pruned(_) => true
  }

  lemma StepKeepsDead(m: Model, ev: Event, s: Slot, at: int)
    requires RowidsDistinct(m) && Enabled(ev) && !s.Item? && Dead(m, s, at) && Alone(m, s) && Quiet(m, ev, s, at)
    ensures Dead(Step(m, ev), s, at) && Alone(Step(m, ev), s)
  {
    hide RowidsDistinct, Dead, Alone, Leaves, Spares, Deliver, Confirm, Censuses, PrunePayloads;
    match ev
    case Delivered(objects, receivedAt) => DeliverKeepsDead(m, objects, receivedAt, s, at);
    case Repaired(kind, objects, refs, now) =>
      CensusesKeepDead(m, refs, objects, now, s, at);
      ConfirmKeepsDead(Censuses(m, refs, objects, now), kind, objects, now, s, at);
    case Pruned(now) => PassKeepsDead(m, now, s, at);
  }

  /** Over any run of deliveries, repairs and passes, a deleted object is never live again while every
      later write of it carries at most the tombstone's source time: not even after the row cap has
      dropped the tombstone. */
  lemma {:induction false} TombstonesStayDead(h: seq<Model>, evs: seq<Event>, i: nat, j: nat, s: Slot, at: int)
    requires Run(h, evs) && Inv(h[0]) && i <= j < |h| && !s.Item?
    requires Dead(h[i], s, at) && Alone(h[i], s)
    requires forall k | i <= k < j :: Quiet(h[k], evs[k], s, at)
    ensures Dead(h[j], s, at) && Alone(h[j], s)
    ensures s in h[j].rows ==> h[j].rows[s].tombstone
    decreases j
  {
    hide Inv, Step, Enabled, RowidsDistinct, Alone, Quiet;
    if i < j {
      TombstonesStayDead(h, evs, i, j - 1, s, at);
      RunKeeps(h, evs, j - 1);
      InvIsRowids(h[j - 1]);
      StepKeepsDead(h[j - 1], evs[j - 1], s, at);
    }
  }

  /** Comments have no twins, so for them the events need only leave the object itself alone. */
  lemma CommentsHaveNoTwins(m: Model, q: seq<Object>, s: Slot, at: int)
    requires s.Comment?
    ensures Alone(m, s) && (Leaves(q, s, at) <==> forall o | o in q && o.slot == s :: o.sourceAt <= at)
  {
  }

  // ----- below the row cap -----

  /** The event's objects lie in a universe that fits the caps, and none is a later version of `s`. */
  ghost predicate Within(ev: Event, universe: set<Slot>, s: Slot, at: int) {
    var q := if ev.Delivered? || ev.Repaired? then ev.objects else [];
    forall o | o in q :: o.slot in universe && (o.slot == s ==> o.sourceAt <= at)
  }

  ghost predicate Held(m: Model, s: Slot, at: int) {
    s in m.rows && m.rows[s].tombstone && m.rows[s].sourceAt == at
  }

  lemma UpsertHolds(m: Model, o: Object, receivedAt: int, confirmed: bool, retire: bool, universe: set<Slot>, s: Slot, at: int)
    requires Fits(m, universe) && o.slot in universe && !s.Item? && Held(m, s, at) && (o.slot == s ==> o.sourceAt <= at)
    ensures var u := Upsert(m, o, receivedAt, confirmed, retire);
            Fits(u, universe) && Held(u, s, at)
  {
    hide Upsert, BeforeCap, Cap;
    var v := BeforeCap(m, o, receivedAt, confirmed, retire);
    BeforeCapRows(m, o, receivedAt, confirmed, retire);
    UpsertIsCapped(m, o, receivedAt, confirmed, retire);
    assert Fits(v, universe);
    CapDoesNothing(v, universe, o.slot.ref, TableOf(o.slot));
  }

  lemma {:induction false} DeliverHolds(m: Model, q: seq<Object>, receivedAt: int, universe: set<Slot>, s: Slot, at: int)
    requires Fits(m, universe) && !s.Item? && Held(m, s, at)
    requires forall o | o in q :: o.slot in universe && (o.slot == s ==> o.sourceAt <= at)
    ensures Fits(Deliver(m, q, receivedAt), universe) && Held(Deliver(m, q, receivedAt), s, at)
    decreases |q|
  {
    hide Upsert, Fits, Held;
    if q != [] {
      assert q[0] in q;
      UpsertHolds(m, q[0], receivedAt, false, false, universe, s, at);
      DeliverHolds(Upsert(m, q[0], receivedAt, false, false), q[1..], receivedAt, universe, s, at);
    }
  }

  lemma {:induction false} ConfirmHolds(m: Model, kind: RepairKind, q: seq<Object>, now: int, universe: set<Slot>, s: Slot, at: int)
    requires Fits(m, universe) && !s.Item? && Held(m, s, at)
    requires forall o | o in q :: o.slot in universe && (o.slot == s ==> o.sourceAt <= at)
    ensures Fits(Confirm(m, kind, q, now), universe) && Held(Confirm(m, kind, q, now), s, at)
    decreases |q|
  {
    hide Upsert, Fits, Held, Retires;
    if q != [] {
      assert q[0] in q;
      UpsertHolds(m, q[0], now, true, Retires(kind, q[0]), universe, s, at);
      ConfirmHolds(Upsert(m, q[0], now, true, Retires(kind, q[0])), kind, q[1..], now, universe, s, at);
    }
  }

  lemma {:induction false} CensusesHold(m: Model, refs: seq<Ref>, q: seq<Object>, now: int, universe: set<Slot>, s: Slot, at: int)
    requires Fits(m, universe) && !s.Item? && Held(m, s, at)
    ensures Fits(Censuses(m, refs, q, now), universe) && Held(Censuses(m, refs, q, now), s, at)
    decreases |refs|
  {
    hide Census, Fits, Held;
    if refs != [] {
      CensusHolds(m, refs[0], LiveIds(q, refs[0]), now, universe, s, at);
      CensusesHold(Census(m, refs[0], LiveIds(q, refs[0]), now), refs[1..], q, now, universe, s, at);
    }
  }

  lemma CensusHolds(m: Model, ref: Ref, live: set<int>, now: int, universe: set<Slot>, s: Slot, at: int)
    requires Fits(m, universe) && !s.Item? && Held(m, s, at)
    ensures Fits(Census(m, ref, live, now), universe) && Held(Census(m, ref, live, now), s, at)
  {
    assert Census(m, ref, live, now).rows.Keys == m.rows.Keys;
  }

  lemma PassHolds(m: Model, now: int, universe: set<Slot>, s: Slot, at: int)
    requires RowidsDistinct(m) && now >= 0 && Fits(m, universe) && Held(m, s, at)
    ensures Fits(PrunePayloads(m, now).model, universe) && Held(PrunePayloads(m, now).model, s, at)
  {
    hide PrunePayloads, RowidsDistinct, Fits;
    PassKeepsStamps(m, now, universe, s);
  }

  lemma StepHolds(m: Model, ev: Event, universe: set<Slot>, s: Slot, at: int)
    requires RowidsDistinct(m) && Enabled(ev) && Fits(m, universe) && !s.Item? && Held(m, s, at) && Within(ev, universe, s, at)
    ensures Fits(Step(m, ev), universe) && Held(Step(m, ev), s, at)
  {
    hide RowidsDistinct, Fits, Held, Deliver, Confirm, Censuses, PrunePayloads;
    match ev
    case Delivered(objects, receivedAt) => DeliverHolds(m, objects, receivedAt, universe, s, at);
    case Repaired(kind, objects, refs, now) =>
      CensusesHold(m, refs, objects, now, universe, s, at);
      ConfirmHolds(Censuses(m, refs, objects, now), kind, objects, now, universe, s, at);
    case Pruned(now) => PassHolds(m, now, universe, s, at);
  }

  /** Below the row cap the tombstone itself is kept, whatever repairs, censuses and twins there are. */
  lemma {:induction false} TombstonesAreKeptBelowTheCap(h: seq<Model>, evs: seq<Event>, i: nat, j: nat, universe: set<Slot>, s: Slot, at: int)
    requires Run(h, evs) && Inv(h[0]) && i <= j < |h| && !s.Item? && Fits(h[i], universe) && Held(h[i], s, at)
    requires forall k | i <= k < j :: Within(evs[k], universe, s, at)
    ensures Fits(h[j], universe) && Held(h[j], s, at)
    decreases j
  {
    hide Inv, Step, Enabled, RowidsDistinct, Fits, Held, Within;
    if i < j {
      TombstonesAreKeptBelowTheCap(h, evs, i, j - 1, universe, s, at);
      RunKeeps(h, evs, j - 1);
      InvIsRowids(h[j - 1]);
      StepHolds(h[j - 1], evs[j - 1], universe, s, at);
    }
  }

  // ----- how a forgotten activity can return -----

  /** Whether a row of the table has so few above it that the cap would spare it. */
  predicate HasRoom(m: Model, r: Slot) { r in m.rows && |Above(m, r, m.rows[r].sourceAt)| < MAX_PER_ITEM }

  lemma TopHasRoom(v: Model, ref: Ref, table: Table, k: nat)
    requires k < MAX_PER_ITEM && k < |Ranked(v, ref, table)|
    ensures HasRoom(v, Ranked(v, ref, table)[k])
  {
    hide Ranked, Members;
    RankedFacts(v, ref, table);
    var q := Ranked(v, ref, table);
    var t := q[k];
    assert t in q;
    var above := Above(v, t, v.rows[t].sourceAt);
    AboveIsRanked(v, t, v.rows[t].sourceAt);
    forall r | r in above ensures r in q[..k] {
      var j :| 0 <= j < |q| && q[j] == r;
      if k < j { RankedHigher(v, ref, table, k, j); }
      assert j < k;
      assert q[..k][j] == r;
    }
    InMembers(above, q[..k]);
    SubsetSize(above, Members(q[..k]));
    FewMembers(q[..k]);
  }

  /** A row with room is among the first, or its twin is. */
  lemma RoomIsAtTheTop(v: Model, t: Slot)
    requires !t.Item? && HasRoom(v, t) && |Ranked(v, t.ref, TableOf(t))| > MAX_PER_ITEM
    ensures IdOf(t) in Ids(Ranked(v, t.ref, TableOf(t))[..MAX_PER_ITEM])
  {
    hide Ranked, Members;
    var q := Ranked(v, t.ref, TableOf(t));
    var top := q[..MAX_PER_ITEM];
    RankedFacts(v, t.ref, TableOf(t));
    assert t in q;
    var k :| 0 <= k < |q| && q[k] == t;
    if k < MAX_PER_ITEM {
      assert top[k] == t;
    } else if forall i | 0 <= i < MAX_PER_ITEM :: IdOf(q[i]) != IdOf(t) {
      forall r | r in top ensures r in Above(v, t, v.rows[t].sourceAt) {
        var i :| 0 <= i < MAX_PER_ITEM && top[i] == r;
        RankedHigher(v, t.ref, TableOf(t), i, k);
      }
      InMembersOf(top, Above(v, t, v.rows[t].sourceAt));
      SubsetSize(Members(top), Above(v, t, v.rows[t].sourceAt));
      TopIsDistinct(v, t.ref, TableOf(t), MAX_PER_ITEM);
    } else {
      var i :| 0 <= i < MAX_PER_ITEM && IdOf(q[i]) == IdOf(t);
      assert top[i] in top;
    }
  }

  lemma KeptMeansRoom(v: Model, s: Slot)
    requires s in v.rows && !s.Item?
    ensures s in Cap(v, s.ref, TableOf(s)).rows <==> exists t | t in v.rows :: (t == s || Twins(t, s)) && HasRoom(v, t)
  {
    hide Ranked, Cap, HasRoom, Ids;
    var q := Ranked(v, s.ref, TableOf(s));
    RankedFacts(v, s.ref, TableOf(s));
    if |q| <= MAX_PER_ITEM {
      assert Cap(v, s.ref, TableOf(s)) == v by { SmallIsUncapped(v, s.ref, TableOf(s)); }
      assert s in q;
      var k :| 0 <= k < |q| && q[k] == s;
      TopHasRoom(v, s.ref, TableOf(s), k);
    } else {
      KeptExactlyWhen(v, s);
      if IdOf(s) in Ids(q[..MAX_PER_ITEM]) {
        var k := IndexOfId(q, IdOf(s));
        TopHasRoom(v, s.ref, TableOf(s), k);
        assert q[k] in q && (q[k] == s || Twins(q[k], s));
      }
      if t :| t in v.rows && (t == s || Twins(t, s)) && HasRoom(v, t) {
        RoomIsAtTheTop(v, t);
      }
    }
  }

  lemma SmallIsUncapped(v: Model, ref: Ref, table: Table)
    requires |Ranked(v, ref, table)| <= MAX_PER_ITEM
    ensures Cap(v, ref, table) == v
  {
    hide Ranked;
  }

  lemma IndexOfId(q: seq<Slot>, id: int) returns (k: nat)
    requires MAX_PER_ITEM < |q| && id in Ids(q[..MAX_PER_ITEM])
    ensures k < MAX_PER_ITEM && IdOf(q[k]) == id
  {
    var t :| t in q[..MAX_PER_ITEM] && IdOf(t) == id;
    k :| 0 <= k < MAX_PER_ITEM && q[..MAX_PER_ITEM][k] == t;
  }

  /** A write of an object the table does not hold stays iff fewer rows than the cap rank above it, or
      a twin has that room: an identifier spared for one kind is spared for both. */
  lemma ReturnsExactlyWhen(m: Model, o: Object, receivedAt: int, confirmed: bool, retire: bool)
    requires !o.slot.Item? && o.slot !in m.rows
    ensures var u := Upsert(m, o, receivedAt, confirmed, retire);
            && (o.slot in u.rows <==>
                  |Above(m, o.slot, o.sourceAt)| < MAX_PER_ITEM || exists t | t in m.rows :: Twins(t, o.slot) && HasRoom(m, t))
            && (o.slot in u.rows ==> u.rows[o.slot].tombstone == o.tombstone && u.rows[o.slot].sourceAt == o.sourceAt)
  {
    hide Upsert, BeforeCap, Cap, Above, HasRoom;
    var s := o.slot;
    var v := BeforeCap(m, o, receivedAt, confirmed, retire);
    UpsertIsCapped(m, o, receivedAt, confirmed, retire);
    BeforeCapRows(m, o, receivedAt, confirmed, retire);
    CapElsewhere(v, s.ref, TableOf(s));
    KeptMeansRoom(v, s);
    RoomOfNew(m, v, o);
    if t :| t in v.rows && Twins(t, s) && HasRoom(v, t) {
      RoomOfTwin(m, v, o, t);
    }
    if t :| t in m.rows && Twins(t, s) && HasRoom(m, t) {
      RoomOfTwin(m, v, o, t);
    }
  }

  lemma RoomOfNew(m: Model, v: Model, o: Object)
    requires !o.slot.Item? && o.slot !in m.rows && WritesOnly(m, v, o, true)
    ensures HasRoom(v, o.slot) <==> |Above(m, o.slot, o.sourceAt)| < MAX_PER_ITEM
  {
    assert Above(v, o.slot, o.sourceAt) == Above(m, o.slot, o.sourceAt);
  }

  /** The new row can only take a twin's place by ranking above it, and then it has room itself. */
  lemma RoomOfTwin(m: Model, v: Model, o: Object, t: Slot)
    requires !o.slot.Item? && o.slot !in m.rows && WritesOnly(m, v, o, true) && t in m.rows && Twins(t, o.slot)
    ensures HasRoom(v, t) ==> HasRoom(m, t)
    ensures HasRoom(m, t) ==> HasRoom(v, t) || HasRoom(v, o.slot)
  {
    var at := m.rows[t].sourceAt;
    var s := o.slot;
    assert Above(m, t, at) <= Above(v, t, at) <= Above(m, t, at) + {s};
    SubsetSize(Above(m, t, at), Above(v, t, at));
    if s in Above(v, t, at) {
      assert Above(v, s, o.sourceAt) <= Above(m, t, at);
      SubsetSize(Above(v, s, o.sourceAt), Above(m, t, at));
    } else {
      assert Above(v, t, at) == Above(m, t, at);
    }
  }

  // ----- runs in which one does -----

  const R := Ref("r", 1)
  const TWIN := Activity(R, 1, false)

  /** The deleted object of each run, and the later ones of its table that drop its tombstone. */
  function Gone(c: bool): Slot { if c then Comment(R, 1) else Activity(R, 1, true) }

  function Other(c: bool, n: nat): Slot { if c then Comment(R, n + 1) else Activity(R, n + 1, false) }

  function Write(s: Slot, at: int, tombstone: bool): Object { Object(s, at, tombstone, map[], false) }

  function Others(c: bool, n: nat): seq<Object> { if n == 0 then [] else Others(c, n - 1) + [Write(Other(c, n), 10, false)] }

  function Slots(c: bool, n: nat): set<Slot> { if n == 0 then {Gone(c)} else Slots(c, n - 1) + {Other(c, n)} }

  lemma {:induction false} SlotsAre(c: bool, n: nat)
    ensures |Slots(c, n)| == n + 1
    ensures forall r :: r in Slots(c, n) <==> r == Gone(c) || exists k: nat | 1 <= k <= n :: r == Other(c, k)
  {
    if n > 0 {
      SlotsAre(c, n - 1);
      assert Other(c, n) !in Slots(c, n - 1);
    }
  }

  lemma {:induction false} DeliverAppends(m: Model, p: seq<Object>, o: Object, receivedAt: int)
    ensures Deliver(m, p + [o], receivedAt) == Upsert(Deliver(m, p, receivedAt), o, receivedAt, false, false)
    decreases |p|
  {
    hide Upsert;
    if p == [] {
      assert [] + [o] == [o];
      assert Deliver(Upsert(m, o, receivedAt, false, false), [o][1..], receivedAt) == Upsert(m, o, receivedAt, false, false);
    } else {
      assert (p + [o])[1..] == p[1..] + [o];
      DeliverAppends(Upsert(m, p[0], receivedAt, false, false), p[1..], o, receivedAt);
    }
  }

  /** The rows are the deleted object and the first so many later ones, live and at their own times. */
  ghost predicate Filled(m: Model, c: bool, n: nat) {
    && m.rows.Keys == Slots(c, n) && Held(m, Gone(c), 5)
    && (forall k: nat | 1 <= k <= n :: Other(c, k) in m.rows ==> LiveAtTen(m.rows[Other(c, k)]))
  }

  predicate LiveAtTen(r: Row) { r.sourceAt == 10 && !r.tombstone }

  lemma OneMore(m: Model, c: bool, n: nat)
    requires n >= 1 && Filled(m, c, n - 1)
    ensures Filled(BeforeCap(m, Write(Other(c, n), 10, false), 1, false, false), c, n)
  {
    hide BeforeCap;
    var o := Write(Other(c, n), 10, false);
    SlotsAre(c, n);
    SlotsAre(c, n - 1);
    BeforeCapRows(m, o, 1, false, false);
    var v := BeforeCap(m, o, 1, false, false);
    assert Other(c, n) !in m.rows;
    forall k: nat | 1 <= k <= n && Other(c, k) in v.rows ensures LiveAtTen(v.rows[Other(c, k)]) {
      if k < n { assert Other(c, k) in m.rows && Other(c, k) != Other(c, n); }
    }
  }

  lemma SmallTableIsUncapped(v: Model, c: bool, n: nat)
    requires n < MAX_PER_ITEM && v.rows.Keys == Slots(c, n)
    ensures Cap(v, R, TableOf(Gone(c))) == v
  {
    SlotsAre(c, n);
    hide Slots, Cap;
    forall ref, table ensures |InUniverse(Slots(c, n), ref, table)| <= MAX_PER_ITEM {
      SubsetSize(InUniverse(Slots(c, n), ref, table), Slots(c, n));
    }
    CapDoesNothing(v, Slots(c, n), R, TableOf(Gone(c)));
  }

  lemma {:induction false} FillsUp(m: Model, c: bool, n: nat)
    requires n < MAX_PER_ITEM && Filled(m, c, 0)
    ensures Filled(Deliver(m, Others(c, n), 1), c, n)
    decreases n
  {
    hide Filled, Upsert, BeforeCap, Cap;
    if n > 0 {
      var o := Write(Other(c, n), 10, false);
      var b := Deliver(m, Others(c, n - 1), 1);
      FillsUp(m, c, n - 1);
      DeliverAppends(m, Others(c, n - 1), o, 1);
      OneMore(b, c, n);
      UpsertIsCapped(b, o, 1, false, false);
      var v := BeforeCap(b, o, 1, false, false);
      assert v.rows.Keys == Slots(c, n) by { FilledKeys(v, c, n); }
      SmallTableIsUncapped(v, c, n);
    }
  }

  lemma FilledKeys(m: Model, c: bool, n: nat)
    requires Filled(m, c, n)
    ensures m.rows.Keys == Slots(c, n)
  {
  }

  /** The five hundredth later object drops the tombstone: all of them rank above it. */
  lemma FullTableForgets(v: Model, c: bool)
    requires Filled(v, c, MAX_PER_ITEM)
    ensures var u := Cap(v, R, TableOf(Gone(c)));
            Gone(c) !in u.rows && forall r | r in u.rows :: r != TWIN && SameTable(r, Gone(c)) && LiveAtTen(u.rows[r])
  {
    hide Cap, Ranked, Slots;
    SlotsAre(c, MAX_PER_ITEM);
    CapElsewhere(v, R, TableOf(Gone(c)));
    var above := Above(v, Gone(c), 5);
    forall r | r in v.rows && r != Gone(c)
      ensures r in above && LiveAtTen(v.rows[r]) && r != TWIN && SameTable(r, Gone(c)) && !Twins(r, Gone(c))
    {
      var k: nat :| 1 <= k <= MAX_PER_ITEM && r == Other(c, k);
    }
    assert above == v.rows.Keys - {Gone(c)};
    assert |above| == MAX_PER_ITEM;
    RankedIsWhole(v, c);
    FullTableDrops(v, Gone(c), 5);
  }

  lemma RankedIsWhole(v: Model, c: bool)
    requires Filled(v, c, MAX_PER_ITEM)
    ensures |Ranked(v, R, TableOf(Gone(c)))| > MAX_PER_ITEM
  {
    hide Ranked, Slots;
    SlotsAre(c, MAX_PER_ITEM);
    RankedFacts(v, R, TableOf(Gone(c)));
    assert Newest(v, R, TableOf(Gone(c))).Keys == v.rows.Keys;
    assert |Newest(v, R, TableOf(Gone(c)))| == |Newest(v, R, TableOf(Gone(c))).Keys|;
  }

  lemma FirstDelivery(c: bool)
    ensures Filled(Deliver(EMPTY, [Write(Gone(c), 5, true)], 1), c, 0)
  {
    hide Cap;
    var o := Write(Gone(c), 5, true);
    var v := BeforeCap(EMPTY, o, 1, false, false);
    UpsertIsCapped(EMPTY, o, 1, false, false);
    SlotsAre(c, 0);
    assert v.rows.Keys == {Gone(c)};
    SmallTableIsUncapped(v, c, 0);
    assert [o][1..] == [];
  }

  /** An event that writes no version of the object later than its tombstone. */
  predicate Older(ev: Event, s: Slot, at: int) {
    (ev.Delivered? || ev.Repaired?) && forall o | o in ev.objects && o.slot == s :: o.sourceAt <= at
  }

  /** A review is deleted at time 5, dropped by five hundred later ones, and live again by a write of
      time 5, because a review comment of the same identifier has come since. */
  lemma TwinsRevive() returns (h: seq<Model>, evs: seq<Event>)
    ensures Run(h, evs) && Inv(h[0]) && |h| == 5 && Held(h[1], Gone(false), 5)
    ensures forall ev | ev in evs[1..] :: ev.Delivered? && Older(ev, Gone(false), 5)
    ensures Gone(false) in h[4].rows && !h[4].rows[Gone(false)].tombstone
  {
    hide Inv, Run, Deliver, Others, Filled, Held, Write, RowidsDistinct;
    h, evs := WitnessRun(false, Delivered([Write(TWIN, 20, false)], 1));
    Forgotten(h[1], false);
    TwinReturns(h[2]);
    RestIsOlder(false, evs);
  }

  /** A comment is deleted at time 5, dropped by five hundred later ones, and live again by a write of
      time 5, because a census of an earlier clock has buried those at time 3. */
  lemma EarlyCensusRevives() returns (h: seq<Model>, evs: seq<Event>)
    ensures Run(h, evs) && Inv(h[0]) && |h| == 5 && Held(h[1], Gone(true), 5)
    ensures evs[2] == Repaired(CommentRepair, [], [R], 3) && forall ev | ev in evs[1..] :: Older(ev, Gone(true), 5)
    ensures Gone(true) in h[4].rows && !h[4].rows[Gone(true)].tombstone
  {
    hide Inv, Run, Deliver, Others, Filled, Held, Write, RowidsDistinct, Repair;
    h, evs := WitnessRun(true, Repaired(CommentRepair, [], [R], 3));
    Forgotten(h[1], true);
    BuriedReturns(h[2]);
    RestIsOlder(true, evs);
  }

  /** The deletion, the later objects, one more event, and the late write. */
  lemma WitnessRun(c: bool, ev: Event) returns (h: seq<Model>, evs: seq<Event>)
    requires Enabled(ev) && !ev.Pruned?
    ensures Run(h, evs) && Inv(h[0]) && |h| == 5 && Filled(h[1], c, 0) && Held(h[1], Gone(c), 5)
    ensures evs == [Delivered([Write(Gone(c), 5, true)], 1), Delivered(Others(c, MAX_PER_ITEM), 1), ev,
                    Delivered([Write(Gone(c), 5, false)], 1)]
    ensures h[2] == Deliver(h[1], Others(c, MAX_PER_ITEM), 1)
    ensures RowidsDistinct(h[2]) && h[3] == Step(h[2], ev) && h[4] == Deliver(h[3], [Write(Gone(c), 5, false)], 1)
  {
    hide Deliver, Repair, RowidsDistinct, Inv, Others, Filled, Held, Write;
    var tomb, others, live := [Write(Gone(c), 5, true)], Others(c, MAX_PER_ITEM), [Write(Gone(c), 5, false)];
    EmptyIsSafe();
    FirstDelivery(c);
    var m1 := Deliver(EMPTY, tomb, 1);
    FilledHolds(m1, c, 0);
    var m2 := Deliver(m1, others, 1);
    StepKeeps(EMPTY, Delivered(tomb, 1));
    StepKeeps(m1, Delivered(others, 1));
    InvIsRowids(m2);
    var m3 := Step(m2, ev);
    h := [EMPTY, m1, m2, m3, Deliver(m3, live, 1)];
    evs := [Delivered(tomb, 1), Delivered(others, 1), ev, Delivered(live, 1)];
  }

  lemma RestIsOlder(c: bool, evs: seq<Event>)
    requires |evs| == 4 && evs[1] == Delivered(Others(c, MAX_PER_ITEM), 1) && evs[3] == Delivered([Write(Gone(c), 5, false)], 1)
    requires if c then evs[2] == Repaired(CommentRepair, [], [R], 3) else evs[2] == Delivered([Write(TWIN, 20, false)], 1)
    ensures forall ev | ev in evs[1..] :: Older(ev, Gone(c), 5) && (evs[2].Delivered? ==> ev.Delivered?)
  {
    hide Others;
    OthersAreOthers(c, MAX_PER_ITEM);
    assert evs[1..] == [evs[1], evs[2], evs[3]];
  }

  lemma FilledHolds(m: Model, c: bool, n: nat)
    requires Filled(m, c, n)
    ensures Held(m, Gone(c), 5)
  {
  }

  lemma {:induction false} OthersAreOthers(c: bool, n: nat)
    ensures forall o | o in Others(c, n) :: o.slot != Gone(c)
  {
    if n > 0 { OthersAreOthers(c, n - 1); }
  }

  lemma Forgotten(m1: Model, c: bool)
    requires Filled(m1, c, 0)
    ensures var m2 := Deliver(m1, Others(c, MAX_PER_ITEM), 1);
            Gone(c) !in m2.rows && forall r | r in m2.rows :: r != TWIN && SameTable(r, Gone(c)) && LiveAtTen(m2.rows[r])
  {
    hide Filled, Upsert, BeforeCap, Cap, LiveAtTen;
    var b := Deliver(m1, Others(c, MAX_PER_ITEM - 1), 1);
    var o := Write(Other(c, MAX_PER_ITEM), 10, false);
    FillsUp(m1, c, MAX_PER_ITEM - 1);
    DeliverAppends(m1, Others(c, MAX_PER_ITEM - 1), o, 1);
    OneMore(b, c, MAX_PER_ITEM);
    UpsertIsCapped(b, o, 1, false, false);
    FullTableForgets(BeforeCap(b, o, 1, false, false), c);
  }

  lemma TwinReturns(m2: Model)
    requires Gone(false) !in m2.rows && forall r | r in m2.rows :: r != TWIN && m2.rows[r].sourceAt == 10
    ensures var m4 := Deliver(Deliver(m2, [Write(TWIN, 20, false)], 1), [Write(Gone(false), 5, false)], 1);
            Gone(false) in m4.rows && !m4.rows[Gone(false)].tombstone
  {
    hide Upsert, BeforeCap, Cap, Above;
    var twin, live := Write(TWIN, 20, false), Write(Gone(false), 5, false);
    var m3 := Upsert(m2, twin, 1, false, false);
    assert [twin][1..] == [] && [live][1..] == [];
    assert |Above(m2, TWIN, 20)| == 0 by { NoneAbove(m2, TWIN, 20); }
    ReturnsExactlyWhen(m2, twin, 1, false, false);
    UpsertIsCapped(m2, twin, 1, false, false);
    BeforeCapRows(m2, twin, 1, false, false);
    CapElsewhere(BeforeCap(m2, twin, 1, false, false), R, Activities);
    assert |Above(m3, TWIN, 20)| == 0 by { NoneAbove(m3, TWIN, 20); }
    ReturnsExactlyWhen(m3, live, 1, false, false);
    assert HasRoom(m3, TWIN) && Twins(TWIN, Gone(false));
  }

  lemma BuriedReturns(m2: Model)
    requires Gone(true) !in m2.rows && forall r | r in m2.rows :: SameTable(r, Gone(true)) && LiveAtTen(m2.rows[r])
    ensures var m4 := Deliver(Repair(m2, CommentRepair, [], [R], 3), [Write(Gone(true), 5, false)], 1);
            Gone(true) in m4.rows && !m4.rows[Gone(true)].tombstone
  {
    hide Upsert, Above, Census;
    var m3 := Repair(m2, CommentRepair, [], [R], 3);
    var u := Census(m2, R, {}, 3);
    assert [R][1..] == [] && LiveIds([], R) == {};
    assert Censuses(u, [], [], 3) == u && m3 == u;
    BuriedRows(m2);
    var live := Write(Gone(true), 5, false);
    assert [live][1..] == [];
    assert |Above(m3, Gone(true), 5)| == 0 by { NoneAbove(m3, Gone(true), 5); }
    ReturnsExactlyWhen(m3, live, 1, false, false);
  }

  lemma BuriedRows(m2: Model)
    requires forall r | r in m2.rows :: SameTable(r, Gone(true)) && LiveAtTen(m2.rows[r])
    ensures var m3 := Census(m2, R, {}, 3);
            m3.rows.Keys == m2.rows.Keys && forall r | r in m3.rows :: m3.rows[r].sourceAt == 3
  {
  }

  lemma NoneAbove(m: Model, s: Slot, at: int)
    requires forall r | r in m.rows && r != s :: m.rows[r].sourceAt < at
    requires s in m.rows ==> m.rows[s].sourceAt <= at
    ensures |Above(m, s, at)| == 0
  {
    assert Above(m, s, at) == {};
  }
}

/** The export index as a change feed: one bounded page, and a reader that follows the cursor. */
module ExportFeed {
  import opened Ordering
  import opened CanonicalTables
  import opened CanonicalTransactions
  import opened CanonicalInvariant
  import opened CanonicalEvolution
  import opened CanonicalRuns

  datatype Query = Query(
    repo: string,
    sections: set<Section>,
    since: int,
    cursor: int,
    limit: int,
    maxRecords: int,
    maxSourceBytes: int,
    maxBytes: int)

  datatype Entry = Entry(key: Key, row: ExportRow, body: Option<Body>)

  datatype Page = Page(records: seq<Entry>, next: Option<int>, watermark: int)

  // ----- one page -----

  /** The index rows of some sections above a store revision. */
  function Above(db: Db, repo: string, sections: set<Section>, floor: int): map<Key, Rank> {
    map k | k in db.exports && k.repo == repo && k.section in sections && floor < db.exports[k].storeRevision ::
      Rank(db.exports[k].storeRevision, 0, 0)
  }

  lemma AboveIsDistinct(db: Db, repo: string, sections: set<Section>, floor: int)
    requires FeedOrder(db)
    ensures Distinct(Above(db, repo, sections, floor))
  {
  }

  /** The first rows of each section, before they are merged. */
  function SectionPages(db: Db, repo: string, sections: set<Section>, floor: int, n: int): map<Key, Rank>
    requires FeedOrder(db)
  {
    assert forall s: Section :: Distinct(Above(db, repo, {s}, floor)) by {
      forall s: Section ensures Distinct(Above(db, repo, {s}, floor)) { AboveIsDistinct(db, repo, {s}, floor); }
    }
    map k | k in Above(db, repo, sections, floor) && k in Limit(Sorted(Above(db, repo, {k.section}, floor)), n) ::
      Above(db, repo, sections, floor)[k]
  }

  lemma SectionPagesAreDistinct(db: Db, repo: string, sections: set<Section>, floor: int, n: int)
    requires FeedOrder(db)
    ensures Distinct(SectionPages(db, repo, sections, floor, n))
  {
    hide Sorted, Limit;
    AboveIsDistinct(db, repo, sections, floor);
  }

  function Rows(db: Db, repo: string, sections: set<Section>, floor: int, n: int): seq<Key>
    requires FeedOrder(db)
  {
    SectionPagesAreDistinct(db, repo, sections, floor, n);
    Limit(Sorted(SectionPages(db, repo, sections, floor, n)), n)
  }

  /** The byte length joined to an index row; None is the consistency error. */
  function SourceBytes(db: Db, k: Key): Option<nat>
    requires k in db.exports
  {
    var row := db.exports[k];
    if row.digest.None? then Some(0)
    else if row.imported || k.section.Commits? then
      if k in db.imports then Some(Bytes(db.imports[k].body)) else None
    else if Stored(db, k) then Some(DigestBytes(MetaOf(db, k).digest))
    else None
  }

  /** Rows until the record limit or the source budget is met; the first is always taken. */
  function Select(db: Db, rows: seq<Key>, q: Query, taken: seq<Key>, bytes: int): Option<seq<Key>>
    requires forall k | k in rows :: k in db.exports
    decreases |rows|
  {
    if rows == [] || |taken| >= q.maxRecords then Some(taken)
    else
      var size := SourceBytes(db, rows[0]);
      if size.None? then None
      else if taken != [] && size.value > q.maxSourceBytes - bytes then Some(taken)
      else Select(db, rows[1..], q, taken + [rows[0]], bytes + size.value)
  }

  /** Whether the source of an entry can be captured before its body is fetched. */
  predicate Capturable(db: Db, k: Key)
    requires k in db.exports
  {
    var row := db.exports[k];
    row.digest.Some? ==>
      if row.imported || k.section.Commits? then k in db.imports
      else if k in db.v2 then db.v2[k].digest == row.digest && db.v2[k].revision == row.revision
      else V1Body(db, k).Some?
  }

  function EntryOf(db: Db, k: Key): Option<Entry>
    requires k in db.exports
  {
    var row := db.exports[k];
    if row.digest.None? then Some(Entry(k, row, None))
    else
      var body := ExportBody(db, k);
      if body.None? then None else Some(Entry(k, row, body))
  }

  /** Entries until the response budget is met; the first is always sent. */
  function Respond(db: Db, rows: seq<Key>, q: Query, size: Entry -> nat, sent: seq<Entry>, bytes: int): Option<seq<Entry>>
    requires forall k | k in rows :: k in db.exports
    decreases |rows|
  {
    if rows == [] then Some(sent)
    else
      var entry := EntryOf(db, rows[0]);
      if entry.None? then None
      else if sent != [] && bytes + size(entry.value) > q.maxBytes then Some(sent)
      else Respond(db, rows[1..], q, size, sent + [entry.value], bytes + size(entry.value))
  }

  lemma RowsAreIndexed(db: Db, repo: string, sections: set<Section>, floor: int, n: int)
    requires FeedOrder(db)
    ensures forall k | k in Rows(db, repo, sections, floor, n) :: k in db.exports
  {
    SectionPagesAreDistinct(db, repo, sections, floor, n);
    SectionPagesAreIndexed(db, repo, sections, floor, n);
    hide Sorted, Limit, FeedOrder, Distinct, SectionPages;
    var pages := SectionPages(db, repo, sections, floor, n);
    forall k | k in Limit(Sorted(pages), n) ensures k in db.exports {
      assert k in Sorted(pages);
    }
  }

  lemma SectionPagesAreIndexed(db: Db, repo: string, sections: set<Section>, floor: int, n: int)
    requires FeedOrder(db)
    ensures forall k | k in SectionPages(db, repo, sections, floor, n) :: k in db.exports
  {
    hide Sorted, Limit;
  }

  lemma {:induction false} SelectTakesAPrefix(db: Db, rows: seq<Key>, q: Query, taken: seq<Key>, bytes: int)
    requires (forall k | k in rows :: k in db.exports) && Select(db, rows, q, taken, bytes).Some?
    ensures var r := Select(db, rows, q, taken, bytes).value;
            taken <= r <= taken + rows
    decreases |rows|
  {
    if rows != [] && |taken| < q.maxRecords && SourceBytes(db, rows[0]).Some? {
      var size := SourceBytes(db, rows[0]).value;
      if taken == [] || size <= q.maxSourceBytes - bytes {
        SelectTakesAPrefix(db, rows[1..], q, taken + [rows[0]], bytes + size);
        assert taken + [rows[0]] + rows[1..] == taken + rows;
      }
    }
  }

  function Last(records: seq<Entry>): Option<int> {
    if records == [] then None else Some(records[|records| - 1].row.storeRevision)
  }

  /** None is the consistency error. `size` is the length of an entry's encoding. */
  function ExportPage(db: Db, q: Query, size: Entry -> nat): Option<Page>
    requires FeedOrder(db)
  {
    hide FeedOrder, Rows, Select, Respond, Capturable, Above;
    if q.sections == {} then Some(Page([], None, db.exportRevision))
    else
      var rows := Rows(db, q.repo, q.sections, Max(q.since, q.cursor), Min(q.limit, q.maxRecords));
      RowsAreIndexed(db, q.repo, q.sections, Max(q.since, q.cursor), Min(q.limit, q.maxRecords));
      var chosen := Select(db, rows, q, [], 0);
      if chosen.None? then None
      else
        SelectTakesAPrefix(db, rows, q, [], 0);
        assert chosen.value <= rows;
        var selected := chosen.value;
        assert forall k | k in selected :: k in rows;
        if exists k | k in selected :: !Capturable(db, k) then None
        else
          var sent := Respond(db, selected, q, size, [], 0);
          if sent.None? then None
          else
            var capturedLast := if selected == [] then 0 else db.exports[selected[|selected| - 1]].storeRevision;
            var capturedMore := capturedLast > 0 && Above(db, q.repo, q.sections, Max(q.since, capturedLast)) != map[];
            var more := capturedMore || |sent.value| < |selected|;
            var last := Last(sent.value);
            Some(Page(sent.value, if last.Some? && (|sent.value| < |rows| || more) then last else None, db.exportRevision))
  }

  // ----- limiting each section loses nothing -----

  /** Reading a bounded range of each section and merging gives the same rows as sorting them all. */
  lemma MergedSectionsAreTheFirstRows(db: Db, repo: string, sections: set<Section>, floor: int, n: int)
    requires FeedOrder(db)
    ensures Distinct(Above(db, repo, sections, floor))
    ensures Rows(db, repo, sections, floor, n) == Limit(Sorted(Above(db, repo, sections, floor)), n)
  {
    hide Sorted, Limit, FeedOrder;
    var all := Above(db, repo, sections, floor);
    var pages := SectionPages(db, repo, sections, floor, n);
    AboveIsDistinct(db, repo, sections, floor);
    SectionPagesAreDistinct(db, repo, sections, floor, n);
    assert Among(pages, all);
    forall k | k in Limit(Sorted(all), n) ensures k in pages {
      assert k in Sorted(all);
      var part := Above(db, repo, {k.section}, floor);
      AboveIsDistinct(db, repo, {k.section}, floor);
      hide Distinct;
      assert Among(part, all) && k in part;
      FirstOfAllIsFirstOfPart(part, all, n, k);
    }
    LimitIgnoresTheRest(pages, all, n);
  }

  // ----- what a page holds -----

  ghost predicate Reads(db: Db, q: Query, k: Key) {
    k in db.exports && k.repo == q.repo && k.section in q.sections
  }

  ghost predicate EntryIs(db: Db, e: Entry) {
    && e.key in db.exports && e.row == db.exports[e.key]
    && e.body == (if e.row.digest.Some? then Some(e.row.digest.value.body) else None)
  }

  lemma {:induction false} ConsistentRowsAreSelected(db: Db, rows: seq<Key>, q: Query, taken: seq<Key>, bytes: int)
    requires Inv(db) && (forall k | k in rows :: k in db.exports)
    ensures Select(db, rows, q, taken, bytes).Some?
    ensures rows != [] && taken == [] && q.maxRecords >= 1 ==> Select(db, rows, q, taken, bytes).value != []
    decreases |rows|
  {
    hide Inv, SourceBytes;
    if rows != [] && |taken| < q.maxRecords {
      IndexedRowsHaveBytes(db, rows[0]);
      var size := SourceBytes(db, rows[0]).value;
      if taken == [] || size <= q.maxSourceBytes - bytes {
        ConsistentRowsAreSelected(db, rows[1..], q, taken + [rows[0]], bytes + size);
        SelectTakesAPrefix(db, rows[1..], q, taken + [rows[0]], bytes + size);
      }
    }
  }

  lemma IndexedRowsHaveBytes(db: Db, k: Key)
    requires Inv(db) && k in db.exports
    ensures SourceBytes(db, k).Some?
  {
    hide ReceiptsFit, ReceiptsUnique, Frontier, FeedOrder, V1Bodies, V2Bodies, Owned, RowidsDistinct, Formats;
  }

  lemma IndexedRowsAreReadable(db: Db, k: Key)
    requires Inv(db) && k in db.exports
    ensures Capturable(db, k) && EntryOf(db, k).Some? && EntryIs(db, EntryOf(db, k).value) && EntryOf(db, k).value.key == k
  {
    hide ReceiptsFit, ReceiptsUnique, Frontier, FeedOrder, Owned, RowidsDistinct, Formats;
    if db.exports[k].digest.Some? {
      EntriesResolve(db, k);
    }
  }

  /** The records sent are the first rows of the selection, as the index has them. */
  ghost predicate Sends(db: Db, rows: seq<Key>, sent: seq<Entry>) {
    && |sent| <= |rows|
    && (forall i | 0 <= i < |sent| :: sent[i].key == rows[i] && EntryIs(db, sent[i]))
  }

  lemma {:induction false} ConsistentRowsAreSent(db: Db, all: seq<Key>, rows: seq<Key>, q: Query, size: Entry -> nat, sent: seq<Entry>, bytes: int)
    requires Inv(db) && (forall k | k in all :: k in db.exports) && (forall k | k in rows :: k in db.exports)
    requires Sends(db, all, sent) && all[|sent|..] == rows
    ensures var r := Respond(db, rows, q, size, sent, bytes);
            r.Some? && Sends(db, all, r.value) && (all != [] ==> r.value != [])
    decreases |rows|
  {
    hide Inv, EntryOf, EntryIs, Capturable;
    if rows != [] {
      IndexedRowsAreReadable(db, rows[0]);
      assert rows[0] == all[|sent|];
      var entry := EntryOf(db, rows[0]).value;
      if sent == [] || bytes + size(entry) <= q.maxBytes {
        var next := sent + [entry];
        assert Sends(db, all, next);
        assert all[|next|..] == rows[1..];
        ConsistentRowsAreSent(db, all, rows[1..], q, size, next, bytes + size(entry));
      }
    }
  }

  /** A page of a consistent store: it is never refused; it holds current rows of the reader's
      sections, each with its body, and every such row up to the last one sent; it sends something
      if there is anything; and it names no next page exactly when nothing is left. */
  ghost predicate PageIs(db: Db, q: Query, page: Page) {
    var floor := Max(q.since, q.cursor);
    && (forall e | e in page.records :: EntryIs(db, e) && Reads(db, q, e.key) && floor < e.row.storeRevision)
    && (forall k | Reads(db, q, k) && floor < db.exports[k].storeRevision ::
          (Last(page.records).Some? && db.exports[k].storeRevision <= Last(page.records).value <==> exists e | e in page.records :: e.key == k))
    && (Last(page.records).Some? ==> floor < Last(page.records).value <= db.exportRevision)
    && page.watermark == db.exportRevision
    && (page.next.Some? ==> page.next == Last(page.records))
    && (page.next.None? <==> forall k | Reads(db, q, k) && floor < db.exports[k].storeRevision :: exists e | e in page.records :: e.key == k)
  }

  lemma PageIsExact(db: Db, q: Query, size: Entry -> nat)
    requires Inv(db) && q.sections != {} && q.limit >= 1 && q.maxRecords >= 1
    ensures ExportPage(db, q, size).Some? && PageIs(db, q, ExportPage(db, q, size).value)
    ensures |ExportPage(db, q, size).value.records| <= Min(q.limit, q.maxRecords)
  {
    hide Inv, Sorted, Limit, Select, Respond, Capturable, SourceBytes, EntryOf, Rows, WellKeyed, RowidsDistinct, Formats, PageIs,
      Distinct;
    InvIsFormats(db);
    var floor := Max(q.since, q.cursor);
    var n := Min(q.limit, q.maxRecords);
    var rows := Rows(db, q.repo, q.sections, floor, n);
    RowsAreIndexed(db, q.repo, q.sections, floor, n);
    ConsistentRowsAreSelected(db, rows, q, [], 0);
    SelectTakesAPrefix(db, rows, q, [], 0);
    var selected := Select(db, rows, q, [], 0).value;
    assert selected <= rows;
    forall k | k in selected ensures k in db.exports && Capturable(db, k) {
      assert k in rows;
      IndexedRowsAreReadable(db, k);
    }
    ConsistentRowsAreSent(db, selected, selected, q, size, [], 0);
    var sent := Respond(db, selected, q, size, [], 0).value;
    MergedSectionsAreTheFirstRows(db, q.repo, q.sections, floor, n);
    hide FeedOrder;
    var page := ExportPage(db, q, size).value;
    assert |rows| <= n by { LimitLength(Sorted(Above(db, q.repo, q.sections, floor)), n); }
    SentIsExact(db, q, rows, selected, sent, page);
  }

  lemma LimitLength<T>(q: seq<T>, n: int)
    requires n >= 0
    ensures |Limit(q, n)| <= n
  {
  }

  /** The reader's rows above the floor, in feed order. */
  ghost predicate FirstRows(db: Db, q: Query, rows: seq<Key>, all: seq<Key>) {
    var floor := Max(q.since, q.cursor);
    && rows <= all
    && (forall i, j | 0 <= i < j < |all| :: all[i] in db.exports && all[j] in db.exports && db.exports[all[i]].storeRevision < db.exports[all[j]].storeRevision)
    && (forall k :: k in all <==> Reads(db, q, k) && floor < db.exports[k].storeRevision)
  }

  lemma FirstRowsOf(db: Db, q: Query, n: int)
    requires FeedOrder(db)
    ensures var floor := Max(q.since, q.cursor);
            Distinct(Above(db, q.repo, q.sections, floor))
            && FirstRows(db, q, Limit(Sorted(Above(db, q.repo, q.sections, floor)), n), Sorted(Above(db, q.repo, q.sections, floor)))
  {
    hide Sorted, Limit, FeedOrder, Distinct;
    var floor := Max(q.since, q.cursor);
    var above := Above(db, q.repo, q.sections, floor);
    AboveIsDistinct(db, q.repo, q.sections, floor);
    var all := Sorted(above);
    forall i, j | 0 <= i < j < |all|
      ensures all[i] in db.exports && all[j] in db.exports && db.exports[all[i]].storeRevision < db.exports[all[j]].storeRevision
    {
      SortedAscends(above, i, j);
    }
  }

  lemma SentIsExact(db: Db, q: Query, rows: seq<Key>, selected: seq<Key>, sent: seq<Entry>, page: Page)
    requires FeedOrder(db) && Distinct(Above(db, q.repo, q.sections, Max(q.since, q.cursor)))
    requires var floor := Max(q.since, q.cursor);
             rows == Limit(Sorted(Above(db, q.repo, q.sections, floor)), Min(q.limit, q.maxRecords))
    requires q.limit >= 1 && q.maxRecords >= 1
    requires selected <= rows && (rows != [] ==> selected != []) && Sends(db, selected, sent) && (selected != [] ==> sent != [])
    requires forall k | k in selected :: k in db.exports
    requires page.records == sent && page.watermark == db.exportRevision
    requires var capturedLast := if selected == [] then 0 else db.exports[selected[|selected| - 1]].storeRevision;
             var capturedMore := capturedLast > 0 && Above(db, q.repo, q.sections, Max(q.since, capturedLast)) != map[];
             var last := Last(sent);
             page.next == if last.Some? && (|sent| < |rows| || capturedMore || |sent| < |selected|) then last else None
    ensures PageIs(db, q, page)
  {
    hide Sorted, Distinct, PageIs, FeedOrder, EntryIs, Reads, Above, FirstRows, Limit, Sends;
    var all := Sorted(Above(db, q.repo, q.sections, Max(q.since, q.cursor)));
    FirstRowsOf(db, q, Min(q.limit, q.maxRecords));
    RowsStartAll(db, q, rows, all);
    assert rows == [] ==> all == [] by { LimitLength(all, Min(q.limit, q.maxRecords)); }
    SendsPrefix(db, selected, rows, sent);
    SentAreCurrent(db, q, rows, all, sent);
    SentAreAll(db, q, rows, all, sent);
    assert page.next.Some? ==> page.next == Last(sent);
    assert page.next.None? <==> |sent| == |all| by { NextIsExact(db, q, rows, all, selected, sent, page); }
    AllAreDifferent(db, q, rows, all);
    PageEnds(db, q, all, sent, page);
  }

  lemma RowsStartAll(db: Db, q: Query, rows: seq<Key>, all: seq<Key>)
    requires FirstRows(db, q, rows, all)
    ensures rows <= all
  {
  }

  lemma SendsPrefix(db: Db, selected: seq<Key>, rows: seq<Key>, sent: seq<Entry>)
    requires selected <= rows && Sends(db, selected, sent)
    ensures Sends(db, rows, sent) && |sent| <= |selected| && forall i | 0 <= i < |sent| :: sent[i].key == rows[i]
  {
    hide EntryIs;
  }

  lemma NextIsExact(db: Db, q: Query, rows: seq<Key>, all: seq<Key>, selected: seq<Key>, sent: seq<Entry>, page: Page)
    requires FeedOrder(db) && FirstRows(db, q, rows, all) && Sends(db, rows, sent)
    requires selected <= rows && |sent| <= |selected| && (forall k | k in selected :: k in db.exports)
    requires (rows == [] ==> all == []) && (rows != [] ==> selected != []) && (selected != [] ==> sent != [])
    requires var capturedLast := if selected == [] then 0 else db.exports[selected[|selected| - 1]].storeRevision;
             var capturedMore := capturedLast > 0 && Above(db, q.repo, q.sections, Max(q.since, capturedLast)) != map[];
             var last := Last(sent);
             page.next == if last.Some? && (|sent| < |rows| || capturedMore || |sent| < |selected|) then last else None
    ensures page.next.None? <==> |sent| == |all|
  {
    hide FeedOrder, EntryIs, Reads, Above, FirstRows, Sends;
    RowsStartAll(db, q, rows, all);
    if sent != [] && |sent| == |rows| {
      assert selected == rows;
      assert all[|sent| - 1] == selected[|sent| - 1];
      assert all[|sent| - 1] in selected;
      LastIsLast(db, q, rows, all, |sent|);
    }
  }

  lemma AllAreDifferent(db: Db, q: Query, rows: seq<Key>, all: seq<Key>)
    requires FirstRows(db, q, rows, all)
    ensures forall i, j | 0 <= i < j < |all| :: all[i] != all[j]
    ensures forall k :: k in all <==> Reads(db, q, k) && Max(q.since, q.cursor) < db.exports[k].storeRevision
  {
    hide Reads;
  }

  /** Whether rows follow the first n, told from the store revision of the n-th. */
  lemma LastIsLast(db: Db, q: Query, rows: seq<Key>, all: seq<Key>, n: nat)
    requires FirstRows(db, q, rows, all) && 1 <= n <= |all| && all[n - 1] in db.exports
    requires FeedOrder(db)
    ensures var last := db.exports[all[n - 1]].storeRevision;
            last > 0 && (Above(db, q.repo, q.sections, Max(q.since, last)) != map[] <==> n < |all|)
  {
    var last := db.exports[all[n - 1]].storeRevision;
    assert all[n - 1] in all;
    assert Max(q.since, q.cursor) < last;
    var above := Above(db, q.repo, q.sections, Max(q.since, last));
    if n < |all| {
      assert all[n] in all;
      assert all[n] in above;
    } else {
      assert forall k :: k in above ==> k in all;
    }
  }

  lemma SentAreCurrent(db: Db, q: Query, rows: seq<Key>, all: seq<Key>, sent: seq<Entry>)
    requires FeedOrder(db) && FirstRows(db, q, rows, all) && Sends(db, rows, sent)
    ensures forall e | e in sent :: EntryIs(db, e) && Reads(db, q, e.key) && Max(q.since, q.cursor) < e.row.storeRevision
    ensures Last(sent).Some? ==> Max(q.since, q.cursor) < Last(sent).value <= db.exportRevision
  {
    var floor := Max(q.since, q.cursor);
    forall e | e in sent
      ensures EntryIs(db, e) && Reads(db, q, e.key) && floor < e.row.storeRevision <= db.exportRevision
    {
      var i :| 0 <= i < |sent| && sent[i] == e;
      assert rows[i] == all[i] && all[i] in all;
    }
    if sent != [] {
      assert sent[|sent| - 1] in sent;
    }
  }

  lemma SentAreAll(db: Db, q: Query, rows: seq<Key>, all: seq<Key>, sent: seq<Entry>)
    requires FirstRows(db, q, rows, all) && Sends(db, rows, sent)
    ensures forall k | Reads(db, q, k) && Max(q.since, q.cursor) < db.exports[k].storeRevision ::
              (Last(sent).Some? && db.exports[k].storeRevision <= Last(sent).value <==> exists e | e in sent :: e.key == k)
  {
    forall k | Reads(db, q, k) && Max(q.since, q.cursor) < db.exports[k].storeRevision
      ensures Last(sent).Some? && db.exports[k].storeRevision <= Last(sent).value <==> exists e | e in sent :: e.key == k
    {
      assert k in all;
      var j :| 0 <= j < |all| && all[j] == k;
      if j < |sent| {
        assert sent[j] in sent && sent[j].key == k;
        assert sent[|sent| - 1].key == all[|sent| - 1];
      } else {
        if sent != [] {
          assert sent[|sent| - 1].key == all[|sent| - 1];
        }
        forall e | e in sent ensures e.key != k {
          var i :| 0 <= i < |sent| && sent[i] == e;
          assert all[i] == e.key;
        }
      }
    }
  }

  lemma PageEnds(db: Db, q: Query, all: seq<Key>, sent: seq<Entry>, page: Page)
    requires page.records == sent && page.watermark == db.exportRevision && |sent| <= |all| && (page.next.Some? ==> page.next == Last(sent))
    requires page.next.None? <==> |sent| == |all|
    requires forall i | 0 <= i < |sent| :: sent[i].key == all[i]
    requires forall i, j | 0 <= i < j < |all| :: all[i] != all[j]
    requires var floor := Max(q.since, q.cursor);
            && (forall k :: k in all <==> Reads(db, q, k) && floor < db.exports[k].storeRevision)
            && (forall e | e in sent :: EntryIs(db, e) && Reads(db, q, e.key) && floor < e.row.storeRevision)
            && (forall k | Reads(db, q, k) && floor < db.exports[k].storeRevision ::
                  (Last(sent).Some? && db.exports[k].storeRevision <= Last(sent).value <==> exists e | e in sent :: e.key == k))
            && (Last(sent).Some? ==> floor < Last(sent).value <= db.exportRevision)
    ensures PageIs(db, q, page)
  {
    hide EntryIs, Reads;
    if |sent| == |all| {
      forall k | k in all ensures exists e | e in page.records :: e.key == k {
        var i :| 0 <= i < |all| && all[i] == k;
        assert sent[i] in sent;
      }
    } else {
      var k := all[|sent|];
      assert k in all;
      forall e | e in sent ensures e.key != k {
        var i :| 0 <= i < |sent| && sent[i] == e;
      }
    }
  }

  // ----- the byte budgets -----

  function EncodedBytes(records: seq<Entry>, size: Entry -> nat): nat {
    if records == [] then 0 else EncodedBytes(records[..|records| - 1], size) + size(records[|records| - 1])
  }

  function BodyBytes(e: Entry): nat { if e.body.Some? then Bytes(e.body.value) else 0 }

  function SourceTotal(records: seq<Entry>): nat {
    if records == [] then 0 else SourceTotal(records[..|records| - 1]) + BodyBytes(records[|records| - 1])
  }

  /** The entry the index holds for a key. */
  function IndexEntry(db: Db, k: Key): Entry
    requires k in db.exports
  {
    var row := db.exports[k];
    Entry(k, row, if row.digest.Some? then Some(row.digest.value.body) else None)
  }

  function IndexEntries(db: Db, rows: seq<Key>): (r: seq<Entry>)
    requires forall k | k in rows :: k in db.exports
    ensures |r| == |rows| && forall i | 0 <= i < |rows| :: r[i] == IndexEntry(db, rows[i])
  {
    seq(|rows|, i requires 0 <= i < |rows| => assert rows[i] in rows; IndexEntry(db, rows[i]))
  }

  lemma EntrySource(db: Db, k: Key)
    requires Inv(db) && k in db.exports
    ensures SourceBytes(db, k) == Some(BodyBytes(IndexEntry(db, k)))
    ensures EntryOf(db, k) == Some(IndexEntry(db, k))
  {
    hide ReceiptsFit, ReceiptsUnique, Frontier, FeedOrder, Owned, RowidsDistinct, Formats;
    IndexedRowsAreReadable(db, k);
  }

  lemma TotalsAppend(records: seq<Entry>, e: Entry, size: Entry -> nat)
    ensures EncodedBytes(records + [e], size) == EncodedBytes(records, size) + size(e)
    ensures SourceTotal(records + [e]) == SourceTotal(records) + BodyBytes(e)
  {
    assert (records + [e])[..|records|] == records;
  }

  /** The body bytes of the first rows. */
  function SourceOf(db: Db, all: seq<Key>, n: nat): nat
    requires (forall k | k in all :: k in db.exports) && n <= |all|
  {
    SourceTotal(IndexEntries(db, all)[..n])
  }

  lemma SourceOfNext(db: Db, all: seq<Key>, n: nat)
    requires (forall k | k in all :: k in db.exports) && n < |all|
    ensures all[n] in db.exports && SourceOf(db, all, n + 1) == SourceOf(db, all, n) + BodyBytes(IndexEntry(db, all[n]))
  {
    var e := IndexEntries(db, all);
    assert all[n] in all;
    assert e[..n + 1] == e[..n] + [e[n]];
    TotalsAppend(e[..n], e[n], x => 0);
  }

  lemma SelectNext(db: Db, all: seq<Key>, q: Query, n: nat)
    requires Inv(db) && (forall k | k in all :: k in db.exports) && n < |all|
    ensures forall k | k in all[n..] :: k in db.exports
    ensures forall k | k in all[n + 1..] :: k in db.exports
    ensures Select(db, all[n..], q, all[..n], SourceOf(db, all, n)) ==
            if n >= q.maxRecords || (n > 0 && SourceOf(db, all, n + 1) > q.maxSourceBytes) then Some(all[..n])
            else Select(db, all[n + 1..], q, all[..n + 1], SourceOf(db, all, n + 1))
  {
    hide Inv, SourceBytes, SourceOf, EntryOf;
    assert all[n..][0] == all[n] && all[n] in all && all[n..][1..] == all[n + 1..];
    assert all[..n + 1] == all[..n] + [all[n]];
    EntrySource(db, all[n]);
    SourceOfNext(db, all, n);
  }

  /** A selection of several rows fits the source budget; one that ends early had no room for the next. */
  ghost predicate SelectionFits(db: Db, all: seq<Key>, q: Query, r: seq<Key>)
    requires forall k | k in all :: k in db.exports
  {
    && r <= all
    && (|r| >= 2 ==> SourceOf(db, all, |r|) <= q.maxSourceBytes)
    && (|r| < |all| && |r| < q.maxRecords ==> SourceOf(db, all, |r| + 1) > q.maxSourceBytes)
  }

  lemma {:induction false} SelectFits(db: Db, all: seq<Key>, q: Query, n: nat)
    requires Inv(db) && (forall k | k in all :: k in db.exports) && n <= |all|
    requires n >= 2 ==> SourceOf(db, all, n) <= q.maxSourceBytes
    ensures forall k | k in all[n..] :: k in db.exports
    ensures var r := Select(db, all[n..], q, all[..n], SourceOf(db, all, n));
            r.Some? && SelectionFits(db, all, q, r.value)
    decreases |all| - n
  {
    hide Inv, SourceOf;
    if n < |all| {
      SelectNext(db, all, q, n);
      if !(n >= q.maxRecords || (n > 0 && SourceOf(db, all, n + 1) > q.maxSourceBytes)) {
        hide Select;
        SelectFits(db, all, q, n + 1);
      }
    }
  }

  /** The same of the response budget. */
  lemma {:induction false} RespondFits(db: Db, all: seq<Key>, q: Query, size: Entry -> nat, n: nat)
    requires Inv(db) && (forall k | k in all :: k in db.exports) && n <= |all|
    requires n >= 2 ==> EncodedBytes(IndexEntries(db, all)[..n], size) <= q.maxBytes
    ensures forall k | k in all[n..] :: k in db.exports
    ensures var r := Respond(db, all[n..], q, size, IndexEntries(db, all)[..n], EncodedBytes(IndexEntries(db, all)[..n], size));
            && r.Some? && n <= |r.value| <= |all| && r.value == IndexEntries(db, all)[..|r.value|]
            && (|r.value| >= 2 ==> EncodedBytes(r.value, size) <= q.maxBytes)
            && (|r.value| < |all| ==> EncodedBytes(IndexEntries(db, all)[..|r.value| + 1], size) > q.maxBytes)
    decreases |all| - n
  {
    hide Inv, EntryOf, EncodedBytes;
    var e := IndexEntries(db, all);
    if n < |all| {
      assert all[n..][0] == all[n] && all[n] in all && all[n..][1..] == all[n + 1..];
      EntrySource(db, all[n]);
      assert e[..n + 1] == e[..n] + [e[n]];
      TotalsAppend(e[..n], e[n], size);
      if n == 0 || EncodedBytes(e[..n], size) + size(e[n]) <= q.maxBytes {
        RespondFits(db, all, q, size, n + 1);
      }
    }
  }

  lemma {:induction false} SourceOfGrows(db: Db, all: seq<Key>, m: nat, n: nat)
    requires (forall k | k in all :: k in db.exports) && m <= n <= |all|
    ensures SourceOf(db, all, m) <= SourceOf(db, all, n)
    decreases n
  {
    hide SourceOf;
    if m < n {
      SourceOfNext(db, all, n - 1);
      SourceOfGrows(db, all, m, n - 1);
    }
  }

  /** The first row the page leaves unsent. */
  ghost predicate FirstLeft(db: Db, q: Query, page: Page, k: Key) {
    && Left(db, q, page, k)
    && forall j | Left(db, q, page, j) :: db.exports[k].storeRevision <= db.exports[j].storeRevision
  }

  ghost predicate Left(db: Db, q: Query, page: Page, k: Key) {
    Reads(db, q, k) && Max(q.since, q.cursor) < db.exports[k].storeRevision && forall e | e in page.records :: e.key != k
  }

  /** A page of several records keeps within the response budget and the source budget, and it stops
      only at its record limit or where the next row would exceed one of the two. */
  ghost predicate FitsBudgets(db: Db, q: Query, size: Entry -> nat, page: Page) {
    var sent := page.records;
    && (|sent| >= 2 ==> EncodedBytes(sent, size) <= q.maxBytes && SourceTotal(sent) <= q.maxSourceBytes)
    && (forall k | FirstLeft(db, q, page, k) ::
          || |sent| == Min(q.limit, q.maxRecords)
          || EncodedBytes(sent, size) + size(IndexEntry(db, k)) > q.maxBytes
          || SourceTotal(sent) + BodyBytes(IndexEntry(db, k)) > q.maxSourceBytes)
  }

  /** The page in the terms of its own selection. */
  lemma PageSelection(db: Db, q: Query, size: Entry -> nat) returns (all: seq<Key>, rows: seq<Key>, selected: seq<Key>)
    requires Inv(db) && q.sections != {} && q.limit >= 1 && q.maxRecords >= 1
    ensures FirstRows(db, q, rows, all) && (forall k | k in all :: k in db.exports)
    ensures |rows| == Min(|all|, Min(q.limit, q.maxRecords)) && selected <= rows
    ensures (forall k | k in rows :: k in db.exports) && SelectionFits(db, rows, q, selected)
    ensures forall k | k in selected :: k in db.exports
    ensures ExportPage(db, q, size).Some?
    ensures Some(ExportPage(db, q, size).value.records) == Respond(db, selected, q, size, [], 0)
  {
    hide Inv, Sorted, Limit, Select, Respond, Capturable, SourceBytes, EntryOf, Rows, WellKeyed, RowidsDistinct, Formats, Distinct,
      FirstRows, SourceOf, SelectionFits;
    InvIsFormats(db);
    var floor := Max(q.since, q.cursor);
    var n := Min(q.limit, q.maxRecords);
    rows := Rows(db, q.repo, q.sections, floor, n);
    RowsAreIndexed(db, q.repo, q.sections, floor, n);
    MergedSectionsAreTheFirstRows(db, q.repo, q.sections, floor, n);
    FirstRowsOf(db, q, n);
    all := Sorted(Above(db, q.repo, q.sections, floor));
    FirstRowsIndexed(db, q, rows, all);
    LimitSize(all, n);
    assert rows[..0] == [] && rows[0..] == rows && SourceOf(db, rows, 0) == 0 by { SourceOfNone(db, rows); }
    SelectFits(db, rows, q, 0);
    selected := Select(db, rows, q, [], 0).value;
    SelectTakesAPrefix(db, rows, q, [], 0);
    assert selected <= rows;
    forall k | k in selected ensures k in db.exports && Capturable(db, k) {
      assert k in rows;
      IndexedRowsAreReadable(db, k);
    }
    ConsistentRowsAreSent(db, selected, selected, q, size, [], 0);
  }

  lemma SourceOfNone(db: Db, rows: seq<Key>)
    requires forall k | k in rows :: k in db.exports
    ensures SourceOf(db, rows, 0) == 0
  {
  }

  lemma FirstRowsIndexed(db: Db, q: Query, rows: seq<Key>, all: seq<Key>)
    requires FirstRows(db, q, rows, all)
    ensures forall k | k in all :: k in db.exports
  {
    forall k | k in all ensures k in db.exports { assert Reads(db, q, k); }
  }

  lemma LimitSize<T>(q: seq<T>, n: int)
    requires n >= 0
    ensures |Limit(q, n)| == Min(|q|, n)
  {
  }

  lemma PageFitsItsBudgets(db: Db, q: Query, size: Entry -> nat)
    requires Inv(db) && q.sections != {} && q.limit >= 1 && q.maxRecords >= 1
    ensures ExportPage(db, q, size).Some? && FitsBudgets(db, q, size, ExportPage(db, q, size).value)
  {
    hide Inv, Respond, ExportPage, EncodedBytes, SourceTotal, SourceOf, FirstRows, SelectionFits, WellKeyed, RowidsDistinct, Formats,
      FeedOrder;
    InvIsFormats(db);
    var all, rows, selected := PageSelection(db, q, size);
    assert selected[0..] == selected && IndexEntries(db, selected)[..0] == [] && EncodedBytes([], size) == 0 by { EncodedNone(size); }
    RespondFits(db, selected, q, size, 0);
    var page := ExportPage(db, q, size).value;
    var sent := page.records;
    var m := |sent|;
    SelectedTotals(db, q, rows, selected, m);
    assert SourceTotal(sent) == SourceOf(db, rows, m) by { SentTotal(db, rows, selected, sent); }
    forall k | FirstLeft(db, q, page, k)
      ensures || m == Min(q.limit, q.maxRecords)
              || EncodedBytes(sent, size) + size(IndexEntry(db, k)) > q.maxBytes
              || SourceTotal(sent) + BodyBytes(IndexEntry(db, k)) > q.maxSourceBytes
    {
      if m != Min(q.limit, q.maxRecords) {
        RowsStartAll(db, q, rows, all);
        forall i | 0 <= i < m ensures sent[i].key == all[i] { assert sent[i] == IndexEntry(db, selected[i]); }
        LeftIsNext(db, q, rows, all, page, k);
        if m < |selected| {
          var e := IndexEntries(db, selected);
          assert e[..m + 1] == e[..m] + [e[m]] && e[m] == IndexEntry(db, k);
          TotalsAppend(e[..m], e[m], size);
        } else {
          SourceOfNext(db, rows, m);
          SelectionEnds(db, rows, q, selected);
        }
      }
    }
  }

  lemma EncodedNone(size: Entry -> nat)
    ensures EncodedBytes([], size) == 0
  {
  }

  lemma SelectionEnds(db: Db, all: seq<Key>, q: Query, r: seq<Key>)
    requires (forall k | k in all :: k in db.exports) && SelectionFits(db, all, q, r) && |r| < |all| && |r| < q.maxRecords
    ensures SourceOf(db, all, |r| + 1) > q.maxSourceBytes
  {
  }

  lemma SelectedTotals(db: Db, q: Query, rows: seq<Key>, selected: seq<Key>, m: nat)
    requires (forall k | k in rows :: k in db.exports) && SelectionFits(db, rows, q, selected) && m <= |selected|
    ensures m >= 2 ==> SourceOf(db, rows, m) <= q.maxSourceBytes
  {
    hide SourceOf;
    SourceOfGrows(db, rows, m, |selected|);
  }

  lemma SentTotal(db: Db, rows: seq<Key>, selected: seq<Key>, sent: seq<Entry>)
    requires (forall k | k in rows :: k in db.exports) && (forall k | k in selected :: k in db.exports)
    requires selected <= rows && |sent| <= |selected| && sent == IndexEntries(db, selected)[..|sent|]
    ensures SourceTotal(sent) == SourceOf(db, rows, |sent|)
  {
    hide SourceTotal;
    assert sent == IndexEntries(db, rows)[..|sent|];
  }

  /** The first row left is the one after those sent. */
  lemma LeftIsNext(db: Db, q: Query, rows: seq<Key>, all: seq<Key>, page: Page, k: Key)
    requires FirstRows(db, q, rows, all) && |page.records| <= |all| && FirstLeft(db, q, page, k)
    requires forall i | 0 <= i < |page.records| :: page.records[i].key == all[i]
    ensures |page.records| < |all| && k == all[|page.records|]
  {
    hide Reads;
    var m := |page.records|;
    assert k in all;
    var j :| 0 <= j < |all| && all[j] == k;
    assert j >= m;
  }
}

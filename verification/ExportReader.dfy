/** A reader that follows the export cursor while any transactions run between its pages. */
module ExportReader {
  import opened Ordering
  import opened CanonicalTables
  import opened CanonicalTransactions
  import opened CanonicalInvariant
  import opened CanonicalEvolution
  import opened CanonicalRuns
  import opened ExportFeed

  datatype Reader = Reader(mirror: map<Key, Entry>, cursor: int)

  /** The newest entry of a page under each key replaces the reader's. */
  function Merge(mirror: map<Key, Entry>, records: seq<Entry>): map<Key, Entry>
    decreases |records|
  {
    if records == [] then mirror else Merge(mirror[records[0].key := records[0]], records[1..])
  }

  function Follow(r: Reader, page: Page): Reader {
    Reader(Merge(r.mirror, page.records), if Last(page.records).Some? then Last(page.records).value else r.cursor)
  }

  function Ask(q: Query, r: Reader): Query { q.(cursor := r.cursor) }

  /** The reader holds the current entry of every row of its sections up to its cursor, tombstones
      included, and no row that is not in the feed. */
  ghost predicate Mirrors(db: Db, q: Query, r: Reader) {
    && r.cursor <= db.exportRevision
    && (forall k | Reads(db, q, k) && q.since < db.exports[k].storeRevision <= r.cursor :: Holds(db, r, k))
    && (forall k | k in r.mirror :: Reads(db, q, k) && q.since < db.exports[k].storeRevision)
  }

  ghost predicate Holds(db: Db, r: Reader, k: Key) {
    k in r.mirror && r.mirror[k].key == k && EntryIs(db, r.mirror[k])
  }

  /** The mirror is the index: the same rows, each with its current version and body. */
  ghost predicate Complete(db: Db, q: Query, r: Reader) {
    && (forall k :: k in r.mirror <==> Reads(db, q, k) && q.since < db.exports[k].storeRevision)
    && (forall k | k in r.mirror :: Holds(db, r, k))
  }

  lemma NewReaderMirrors(db: Db, q: Query)
    requires FeedOrder(db)
    ensures Mirrors(db, q, Reader(map[], 0))
  {
  }

  /** Whatever the store does between two pages, the mirror stays right up to its cursor. */
  lemma WritersKeepTheMirror(a: Db, b: Db, q: Query, r: Reader)
    requires FeedOrder(a) && FeedMoves(a, b) && Mirrors(a, q, r)
    ensures Mirrors(b, q, r)
  {
    forall k | Reads(b, q, k) && q.since < b.exports[k].storeRevision <= r.cursor ensures Holds(b, r, k) {
      assert k in a.exports && b.exports[k] == a.exports[k];
      assert Holds(a, r, k);
    }
    forall k | k in r.mirror ensures Reads(b, q, k) && q.since < b.exports[k].storeRevision {
      assert Reads(a, q, k);
    }
  }

  lemma {:induction false} MergeIsExact(mirror: map<Key, Entry>, records: seq<Entry>, db: Db, k: Key)
    requires forall e | e in records :: EntryIs(db, e)
    ensures var m := Merge(mirror, records);
            && (k in m <==> k in mirror || exists e | e in records :: e.key == k)
            && ((exists e | e in records :: e.key == k) ==> m[k].key == k && EntryIs(db, m[k]))
            && ((forall e | e in records :: e.key != k) && k in mirror ==> m[k] == mirror[k])
    decreases |records|
  {
    hide EntryIs;
    if records != [] {
      var first := records[0];
      assert EntryIs(db, first);
      assert forall e :: e in records <==> e == first || e in records[1..];
      MergeIsExact(mirror[first.key := first], records[1..], db, k);
    }
  }

  lemma PageKeepsTheMirror(db: Db, q: Query, r: Reader, page: Page)
    requires Mirrors(db, q, r) && PageIs(db, Ask(q, r), page)
    ensures Mirrors(db, q, Follow(r, page))
    ensures page.next.None? ==> Complete(db, q, Follow(r, page))
  {
    var n := Follow(r, page);
    assert forall e | e in page.records :: EntryIs(db, e);
    forall k ensures Reads(db, Ask(q, r), k) == Reads(db, q, k) {}
    forall k | Reads(db, q, k) && q.since < db.exports[k].storeRevision
        && (page.next.None? || db.exports[k].storeRevision <= n.cursor)
      ensures Holds(db, n, k)
    {
      hide EntryIs, Reads;
      MergeIsExact(r.mirror, page.records, db, k);
      if db.exports[k].storeRevision <= r.cursor {
        assert Holds(db, r, k);
      }
    }
    forall k | k in n.mirror ensures Reads(db, q, k) && q.since < db.exports[k].storeRevision {
      MergeIsExact(r.mirror, page.records, db, k);
      if k !in r.mirror {
        var e :| e in page.records && e.key == k;
        assert Reads(db, Ask(q, r), k);
      }
    }
  }

  // ----- reading during a run -----

  /** The reader's pages, each read in a state of the run, none earlier than the one before. */
  ghost predicate Reading(h: seq<Db>, q: Query, size: Entry -> nat, times: seq<nat>, readers: seq<Reader>, pages: seq<Page>) {
    && |times| == |pages| && |readers| == |pages| + 1 && readers[0] == Reader(map[], 0)
    && (forall i | 0 <= i < |times| :: times[i] < |h|)
    && (forall i | 1 <= i < |times| :: times[i - 1] <= times[i])
    && (forall i | 0 <= i < |pages| ::
          FeedOrder(h[times[i]]) && ExportPage(h[times[i]], Ask(q, readers[i]), size) == Some(pages[i])
          && readers[i + 1] == Follow(readers[i], pages[i]))
  }

  ghost predicate Readable(q: Query) { q.sections != {} && q.limit >= 1 && q.maxRecords >= 1 }

  /** After every page, and in every later state of the run, the mirror is right up to the cursor;
      and when a page names no next one, the mirror equals the index as of that page. */
  lemma {:induction false} ReadersReplicate(h: seq<Db>, evs: seq<Event>, q: Query, size: Entry -> nat,
                                            times: seq<nat>, readers: seq<Reader>, pages: seq<Page>, n: nat, j: nat)
    requires Run(h, evs) && Inv(h[0]) && Readable(q) && Reading(h, q, size, times, readers, pages)
    requires n <= |pages| && j < |h| && (n > 0 ==> times[n - 1] <= j)
    ensures Mirrors(h[j], q, readers[n])
    ensures n > 0 && pages[n - 1].next.None? ==> Complete(h[times[n - 1]], q, readers[n])
    decreases n
  {
    hide Run, Inv, ViewRaises, Shrinks, Remembers, FeedMoves, FeedOrder, Mirrors, Complete, PageIs, ExportPage, WellKeyed,
      Formats, RowidsDistinct;
    Reached(h, evs, j, j);
    InvIsFormats(h[j]);
    if n == 0 {
      NewReaderMirrors(h[j], q);
    } else {
      var t := times[n - 1];
      var page := pages[n - 1];
      ReadersReplicate(h, evs, q, size, times, readers, pages, n - 1, t);
      Reached(h, evs, t, j);
      InvIsFormats(h[t]);
      PageIsExact(h[t], Ask(q, readers[n - 1]), size);
      PageKeepsTheMirror(h[t], q, readers[n - 1], page);
      WritersKeepTheMirror(h[t], h[j], q, readers[n]);
    }
  }

  // ----- reading a quiet store -----

  ghost function Left(db: Db, q: Query, r: Reader): map<Key, Rank> {
    Above(db, q.repo, q.sections, Max(q.since, r.cursor))
  }

  /** Each page of a store with something left moves the cursor past at least one more row. */
  lemma PagesAdvance(db: Db, q: Query, r: Reader, page: Page)
    requires PageIs(db, Ask(q, r), page) && Left(db, q, r) != map[]
    ensures |Left(db, q, Follow(r, page))| < |Left(db, q, r)|
    ensures page.next.Some? ==> page.next.value == Follow(r, page).cursor && page.next.value > Max(q.since, r.cursor)
  {
    hide EntryIs;
    var n := Follow(r, page);
    var left := Left(db, q, r);
    PagesSendSomething(db, q, r, page);
    var e := page.records[|page.records| - 1];
    assert e in page.records && EntryIs(db, e) && Reads(db, Ask(q, r), e.key);
    assert db.exports[e.key] == e.row by { EntryRow(db, e); }
    assert e.key in left;
    assert e.key !in Left(db, q, n);
    FewerKeys(left, Left(db, q, n), e.key);
  }

  lemma PagesSendSomething(db: Db, q: Query, r: Reader, page: Page)
    requires PageIs(db, Ask(q, r), page) && Left(db, q, r) != map[]
    ensures page.records != []
  {
    hide EntryIs;
    var k :| k in Left(db, q, r);
    assert Reads(db, Ask(q, r), k);
  }

  lemma EntryRow(db: Db, e: Entry)
    requires EntryIs(db, e)
    ensures e.key in db.exports && db.exports[e.key] == e.row
  {
  }

  ghost function ReadOn(db: Db, q: Query, size: Entry -> nat, r: Reader, n: nat): Reader
    requires FeedOrder(db)
    decreases n
  {
    hide ExportPage, FeedOrder;
    if n == 0 then r
    else
      var page := ExportPage(db, Ask(q, r), size);
      if page.None? then r else ReadOn(db, q, size, Follow(r, page.value), n - 1)
  }

  /** Between writes, as many pages as there are rows left always complete the mirror. */
  lemma {:induction false} QuietReadingCompletes(db: Db, q: Query, size: Entry -> nat, r: Reader, n: nat)
    requires Inv(db) && FeedOrder(db) && Readable(q) && Mirrors(db, q, r) && n >= |Left(db, q, r)|
    ensures Complete(db, q, ReadOn(db, q, size, r, n))
    decreases n
  {
    hide Inv, FeedOrder, Mirrors, Complete, PageIs, ExportPage, Left;
    if n == 0 {
      NothingLeftIsComplete(db, q, r);
    } else {
      PageIsExact(db, Ask(q, r), size);
      var page := ExportPage(db, Ask(q, r), size).value;
      PageKeepsTheMirror(db, q, r, page);
      if Left(db, q, r) != map[] {
        PagesAdvance(db, q, r, page);
      } else {
        NothingLeftStays(db, q, r, page);
      }
      QuietReadingCompletes(db, q, size, Follow(r, page), n - 1);
    }
  }

  lemma NothingLeftIsComplete(db: Db, q: Query, r: Reader)
    requires Mirrors(db, q, r) && |Left(db, q, r)| == 0
    ensures Complete(db, q, r)
  {
    hide EntryIs;
    assert Left(db, q, r) == map[];
    forall k | Reads(db, q, k) && q.since < db.exports[k].storeRevision ensures Holds(db, r, k) {
      assert k !in Left(db, q, r);
    }
  }

  lemma NothingLeftStays(db: Db, q: Query, r: Reader, page: Page)
    requires PageIs(db, Ask(q, r), page) && Left(db, q, r) == map[]
    ensures Left(db, q, Follow(r, page)) == map[]
  {
    hide EntryIs;
    if page.records != [] {
      assert forall k :: k in Left(db, q, Follow(r, page)) ==> k in Left(db, q, r);
    }
  }
}

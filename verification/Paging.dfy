/** Keyset paging over the transactions table, and the walk a client makes along `next_cursor`. */
module Paging {
  import opened Wrappers
  import opened Records
  import opened OrderBy

  const MAX_PAGE_SIZE: int := 100

  predicate PageSizeOk(limit: int) { 1 <= limit <= MAX_PAGE_SIZE }

  datatype Filters = Filters(
    userId: Option<nat>,
    category: Option<string>,
    isFraud: Option<bool>,
    verdict: Option<Verdict>,
    occurredFrom: Option<int>,
    occurredTo: Option<int>)
  {
    /** The WHERE clause: an absent filter means any; the upper time bound is exclusive. */
    predicate Match(d: Decision) {
      && (userId.Some? ==> d.userId == userId.value)
      && (category.Some? ==> d.category == category.value)
      && (isFraud.Some? ==> d.isFraud == isFraud.value)
      && (verdict.Some? ==> d.verdict == verdict.value)
      && (occurredFrom.Some? ==> d.occurredAt >= occurredFrom.value)
      && (occurredTo.Some? ==> d.occurredAt < occurredTo.value)
    }
  }

  /** Where a page ended, as the key of its last row. */
  datatype PageCursor = PageCursor(occurredAt: int, transactionId: nat) {
    function Key(): Key { (occurredAt, transactionId) }
  }

  function KeyOf(d: Decision): Key { (d.occurredAt, d.transactionId) }

  predicate After(d: Decision, cursor: Option<PageCursor>) {
    cursor.Some? ==> Below(KeyOf(d), cursor.value.Key())
  }

  function Select(rows: seq<Decision>, f: Filters, cursor: Option<PageCursor>): seq<Decision> {
    if rows == [] then []
    else (if f.Match(rows[0]) && After(rows[0], cursor) then [rows[0]] else []) + Select(rows[1..], f, cursor)
  }

  datatype Page = Page(rows: seq<Decision>, next: Option<PageCursor>)

  datatype PageError = LimitOutOfRange

  /** One page. The query asks for `limit + 1` rows; when it gets them all there is a next page, and the last is left to it. */
  function ListTransactions(rows: seq<Decision>, f: Filters, limit: int, cursor: Option<PageCursor>): (r: Result<Page, PageError>)
    ensures r.Err? <==> limit < 1 || limit > 100
  {
    if !PageSizeOk(limit) then Err(LimitOutOfRange)
    else
      var sorted := SortDescending(Select(rows, f, cursor), KeyOf);
      var fetched := if |sorted| > limit + 1 then sorted[..limit + 1] else sorted;
      if |fetched| > limit then
        var last := fetched[limit - 1];
        Ok(Page(fetched[..limit], Some(PageCursor(last.occurredAt, last.transactionId))))
      else Ok(Page(fetched, None))
  }

  // ---------------------------------------------------------------------------
  // One page
  // ---------------------------------------------------------------------------

  lemma {:induction false} SelectSelects(rows: seq<Decision>, f: Filters, cursor: Option<PageCursor>)
    requires UniqueIds(rows)
    ensures UniqueIds(Select(rows, f, cursor))
    ensures forall d :: d in Select(rows, f, cursor) <==> d in rows && f.Match(d) && After(d, cursor)
    decreases |rows|
  {
    if rows != [] {
      SelectSelects(rows[1..], f, cursor);
      var rest := Select(rows[1..], f, cursor);
      forall i | 0 <= i < |rest| ensures rest[i].transactionId != rows[0].transactionId {
        assert rest[i] in rows[1..];
        var j :| 0 <= j < |rows| - 1 && rows[1..][j] == rest[i];
        assert rows[j + 1] == rest[i];
      }
      assert rows == [rows[0]] + rows[1..];
    }
  }

  /** The page is the top of the matching rows past the cursor, and its next cursor separates it from the rest. */
  ghost predicate IsTop(p: Page, rows: seq<Decision>, f: Filters, limit: int, cursor: Option<PageCursor>)
    requires PageSizeOk(limit)
  {
    && Descending(p.rows, KeyOf)
    && (forall d :: d in p.rows ==> d in rows && f.Match(d) && After(d, cursor))
    && (p.next.Some? ==> |p.rows| == limit && p.next.value.Key() == KeyOf(p.rows[limit - 1]))
    && (forall d :: d in rows && f.Match(d) && After(d, cursor) ==>
          d in p.rows || (p.next.Some? && After(d, p.next)))
  }

  lemma PageIsTop(rows: seq<Decision>, f: Filters, limit: int, cursor: Option<PageCursor>)
    requires UniqueIds(rows) && PageSizeOk(limit)
    ensures IsTop(ListTransactions(rows, f, limit, cursor).value, rows, f, limit, cursor)
  {
    var selected := Select(rows, f, cursor);
    SelectSelects(rows, f, cursor);
    SortSorts(selected, KeyOf);
    var sorted := SortDescending(selected, KeyOf);
    var p := ListTransactions(rows, f, limit, cursor).value;
    assert p.rows <= sorted;
    forall d | d in p.rows ensures d in sorted {}
    forall d | d in sorted ensures d in p.rows || (p.next.Some? && After(d, p.next)) {
      var i :| 0 <= i < |sorted| && sorted[i] == d;
      if i < |p.rows| { assert p.rows[i] == d; }
    }
  }

  /**
   Which rows a page takes, field by field: those that every filter given allows, the upper time bound excluded,
   and that come after the cursor in time and then in id.
   */
  lemma PageTakes(rows: seq<Decision>, f: Filters, limit: int, cursor: Option<PageCursor>, d: Decision)
    requires UniqueIds(rows) && 1 <= limit <= 100 && d in rows
    ensures var page := ListTransactions(rows, f, limit, cursor).value;
            var wanted :=
              && (f.userId.None? || d.userId == f.userId.value)
              && (f.category.None? || d.category == f.category.value)
              && (f.isFraud.None? || d.isFraud == f.isFraud.value)
              && (f.verdict.None? || d.verdict == f.verdict.value)
              && (f.occurredFrom.None? || f.occurredFrom.value <= d.occurredAt)
              && (f.occurredTo.None? || d.occurredAt < f.occurredTo.value)
              && (cursor.None? || d.occurredAt < cursor.value.occurredAt
                  || (d.occurredAt == cursor.value.occurredAt && d.transactionId < cursor.value.transactionId));
            if page.next.None? then d in page.rows <==> wanted
            else
              && page.rows != []
              && var last := page.rows[|page.rows| - 1];
                 d in page.rows <==>
                 wanted && (d.occurredAt > last.occurredAt
                            || (d.occurredAt == last.occurredAt && d.transactionId >= last.transactionId))
  {
    PageIsTop(rows, f, limit, cursor);
    var page := ListTransactions(rows, f, limit, cursor).value;
    if page.next.Some? && d in page.rows {
      var i :| 0 <= i < |page.rows| && page.rows[i] == d;
      assert i == limit - 1 || Below(KeyOf(page.rows[limit - 1]), KeyOf(page.rows[i]));
    }
  }

  /** A next page is announced exactly when there is a row for it. */
  lemma NextMeansMore(rows: seq<Decision>, f: Filters, limit: int, cursor: Option<PageCursor>)
    requires UniqueIds(rows) && PageSizeOk(limit)
    ensures var page := ListTransactions(rows, f, limit, cursor).value;
            page.next.Some? <==> exists d :: d in rows && f.Match(d) && After(d, cursor) && d !in page.rows
  {
    PageIsTop(rows, f, limit, cursor);
    var selected := Select(rows, f, cursor);
    SelectSelects(rows, f, cursor);
    SortSorts(selected, KeyOf);
    var sorted, page := SortDescending(selected, KeyOf), ListTransactions(rows, f, limit, cursor).value;
    if page.next.Some? {
      var d := sorted[limit];
      assert d in sorted;
      forall i | 0 <= i < |page.rows| ensures page.rows[i] != d {
        assert Below(KeyOf(d), KeyOf(sorted[i]));
      }
    }
  }

  /** Newest first, and by id within one moment. */
  lemma PageIsNewestFirst(rows: seq<Decision>, f: Filters, limit: int, cursor: Option<PageCursor>, i: nat, j: nat)
    requires UniqueIds(rows) && 1 <= limit <= 100
    requires i < j < |ListTransactions(rows, f, limit, cursor).value.rows|
    ensures var page := ListTransactions(rows, f, limit, cursor).value.rows;
            page[j].occurredAt < page[i].occurredAt
            || (page[j].occurredAt == page[i].occurredAt && page[j].transactionId < page[i].transactionId)
  {
    PageIsTop(rows, f, limit, cursor);
    var page := ListTransactions(rows, f, limit, cursor).value;
    assert Below(KeyOf(page.rows[j]), KeyOf(page.rows[i]));
  }

  // ---------------------------------------------------------------------------
  // The walk
  // ---------------------------------------------------------------------------

  /** Follow `next_cursor` from page to page; tables[i] is the table when page i is read. */
  function Walk(tables: seq<seq<Decision>>, f: Filters, limit: int, cursor: Option<PageCursor>): (seq<Decision>, bool)
    requires PageSizeOk(limit)
  {
    if tables == [] then ([], false)
    else
      var page := ListTransactions(tables[0], f, limit, cursor).value;
      if page.next.None? then (page.rows, true)
      else
        var (rest, done) := Walk(tables[1..], f, limit, page.next);
        (page.rows + rest, done)
  }

  /** Rows are inserted between pages, never changed or removed. */
  ghost predicate Growing(tables: seq<seq<Decision>>) {
    && (forall i :: 0 <= i < |tables| ==> UniqueIds(tables[i]))
    && (forall i, j, d :: 0 <= i < j < |tables| && d in tables[i] ==> d in tables[j])
  }

  lemma TailGrows(tables: seq<seq<Decision>>)
    requires tables != [] && Growing(tables)
    ensures Growing(tables[1..])
    ensures |tables| > 1 ==> tables[1..][0] == tables[1] && forall d :: d in tables[0] ==> d in tables[1]
    ensures |tables| > 1 ==> tables[1..][|tables| - 2] == tables[|tables| - 1]
  {
  }

  /** A list of rows is what a walk over the tables should return. */
  ghost predicate WalkCorrect(rows: seq<Decision>, done: bool, tables: seq<seq<Decision>>, f: Filters, limit: int, cursor: Option<PageCursor>) {
    && Descending(rows, KeyOf)
    && (forall d :: d in rows ==> tables != [] && d in tables[|tables| - 1] && f.Match(d) && After(d, cursor))
    && (done ==> tables != [] && forall d :: d in tables[0] && f.Match(d) && After(d, cursor) ==> d in rows)
    && (!done ==> |rows| == |tables| * limit)
  }

  lemma {:induction false} WalkFrom(tables: seq<seq<Decision>>, f: Filters, limit: int, cursor: Option<PageCursor>)
    requires Growing(tables) && PageSizeOk(limit)
    ensures var (rows, done) := Walk(tables, f, limit, cursor); WalkCorrect(rows, done, tables, f, limit, cursor)
    decreases |tables|
  {
    if tables != [] {
      PageIsTop(tables[0], f, limit, cursor);
      TailGrows(tables);
      var page := ListTransactions(tables[0], f, limit, cursor).value;
      if page.next.Some? {
        WalkFrom(tables[1..], f, limit, page.next);
        var (rest, done) := Walk(tables[1..], f, limit, page.next);
        JoinPages(tables, f, limit, cursor, page, rest, done);
      }
    }
  }

  /** Two descending lists, the second all below the last row of the first, join into one. */
  lemma JoinDescending(first: seq<Decision>, rest: seq<Decision>)
    requires first != [] && Descending(first, KeyOf) && Descending(rest, KeyOf)
    requires forall d :: d in rest ==> Below(KeyOf(d), KeyOf(first[|first| - 1]))
    ensures Descending(first + rest, KeyOf)
  {
    var rows, n := first + rest, |first|;
    forall i, j | 0 <= i < j < |rows| ensures Below(KeyOf(rows[j]), KeyOf(rows[i])) {
      if i < n <= j {
        assert rows[j] in rest;
        assert i < n - 1 ==> Below(KeyOf(first[n - 1]), KeyOf(first[i]));
      }
    }
  }

  /** A page followed by a correct walk from its cursor is a correct walk. */
  lemma JoinPages(tables: seq<seq<Decision>>, f: Filters, limit: int, cursor: Option<PageCursor>, page: Page, rest: seq<Decision>, done: bool)
    requires tables != [] && Growing(tables) && PageSizeOk(limit)
    requires page.next.Some? && IsTop(page, tables[0], f, limit, cursor)
    requires WalkCorrect(rest, done, tables[1..], f, limit, page.next)
    ensures WalkCorrect(page.rows + rest, done, tables, f, limit, cursor)
  {
    TailGrows(tables);
    assert page.rows[limit - 1] in page.rows;
    JoinDescending(page.rows, rest);
    JoinMembers(tables, f, cursor, page, rest, done);
  }

  lemma JoinMembers(tables: seq<seq<Decision>>, f: Filters, cursor: Option<PageCursor>, page: Page, rest: seq<Decision>, done: bool)
    requires tables != [] && Growing(tables) && page.next.Some? && page.rows != []
    requires page.next.value.Key() == KeyOf(page.rows[|page.rows| - 1])
    requires forall d :: d in page.rows ==> d in tables[0] && f.Match(d) && After(d, cursor)
    requires forall d :: d in rest ==> |tables| > 1 && d in tables[|tables| - 1] && f.Match(d) && After(d, page.next)
    requires forall d :: d in tables[0] && f.Match(d) && After(d, cursor) ==> d in page.rows || After(d, page.next)
    requires done ==> forall d :: |tables| > 1 && d in tables[1] && f.Match(d) && After(d, page.next) ==> d in rest
    requires done ==> |tables| > 1
    ensures forall d :: d in page.rows + rest ==> d in tables[|tables| - 1] && f.Match(d) && After(d, cursor)
    ensures done ==> forall d :: d in tables[0] && f.Match(d) && After(d, cursor) ==> d in page.rows + rest
  {
    var last := page.rows[|page.rows| - 1];
    assert last in page.rows;
    forall d | d in rest ensures After(d, cursor) {
      assert Below(KeyOf(d), KeyOf(last));
    }
    if |tables| > 1 {
      assert forall d :: d in tables[0] ==> d in tables[1] && d in tables[|tables| - 1];
    }
  }

  /**
   The keyset walk: with any rows inserted between the pages, a walk returns rows in strictly descending order,
   so none twice, all matching; and a finished walk has every matching row that was there from the start.
   */
  lemma KeysetWalk(tables: seq<seq<Decision>>, f: Filters, limit: int)
    requires Growing(tables) && PageSizeOk(limit) && tables != []
    ensures var (rows, done) := Walk(tables, f, limit, None);
            && Descending(rows, KeyOf)
            && (forall d :: d in rows ==> d in tables[|tables| - 1] && f.Match(d))
            && (done ==> forall d :: d in tables[0] && f.Match(d) ==> d in rows)
  {
    WalkFrom(tables, f, limit, None);
  }

  lemma {:induction false} DistinctRowsFit(rows: seq<Decision>, within: seq<Decision>)
    requires Descending(rows, KeyOf) && forall d :: d in rows ==> d in within
    ensures |rows| <= |within|
    decreases |rows|
  {
    if rows != [] {
      assert rows[0] in within;
      var i :| 0 <= i < |within| && within[i] == rows[0];
      var rest := within[..i] + within[i + 1..];
      TailMembers(rows, KeyOf);
      forall d | d in rows[1..] ensures d in rest {
        var j :| 0 <= j < |within| && within[j] == d;
        assert d == rest[if j < i then j else j - 1];
      }
      DistinctRowsFit(rows[1..], rest);
    }
  }

  /** The walk ends: once the pages read could hold more rows than match, inserts included, it is finished. */
  lemma WalkTerminates(tables: seq<seq<Decision>>, f: Filters, limit: int)
    requires Growing(tables) && PageSizeOk(limit) && tables != []
    requires |Select(tables[|tables| - 1], f, None)| < |tables| * limit
    ensures Walk(tables, f, limit, None).1
  {
    WalkFrom(tables, f, limit, None);
    var last := tables[|tables| - 1];
    SelectSelects(last, f, None);
    var rows := Walk(tables, f, limit, None).0;
    DistinctRowsFit(rows, Select(last, f, None));
  }

  /** With no inserts, the pages put together are exactly the filtered table, sorted. */
  lemma QuietWalkIsSortedTable(table: seq<Decision>, pages: nat, f: Filters, limit: int)
    requires UniqueIds(table) && PageSizeOk(limit)
    requires |Select(table, f, None)| < pages * limit
    ensures Walk(seq(pages, i => table), f, limit, None) == (SortDescending(Select(table, f, None), KeyOf), true)
  {
    var tables := seq(pages, i => table);
    assert pages > 0;
    KeysetWalk(tables, f, limit);
    WalkTerminates(tables, f, limit);
    SelectSelects(table, f, None);
    SortSorts(Select(table, f, None), KeyOf);
    DescendingIsUnique(Walk(tables, f, limit, None).0, SortDescending(Select(table, f, None), KeyOf), KeyOf);
  }
}

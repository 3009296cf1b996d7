/** The history of a rule set, page by page: `list_rule_set_versions` and the endpoint over it. */
module VersionPaging {
  import opened Wrappers
  import opened OrderBy
  import Paging
  import opened RuleSetVersions

  datatype ListError = BadRequest | NotFound | Corrupt

  /** Which rows rebuild into a rule set: those whose stored JSON passes the integrity check. */
  type Loader<!B> = VersionRow<B> -> bool

  function VersionKey<B>(r: VersionRow<B>): Key { (r.version, 0) }

  /** WHERE version < before, over the rows of one key. */
  function Older<B>(rows: seq<VersionRow<B>>, before: Option<int>): seq<VersionRow<B>> {
    if rows == [] then []
    else
      var last := rows[|rows| - 1];
      Older(rows[..|rows| - 1], before) + (if before.Some? && last.version >= before.value then [] else [last])
  }

  /** The query: the highest `limit` versions below the bound, if there is one. */
  function FetchVersions<B>(rows: seq<VersionRow<B>>, key: string, limit: int, before: Option<int>): seq<VersionRow<B>> {
    var sorted := SortDescending(Older(History(rows, key), before), VersionKey);
    if |sorted| > limit >= 0 then sorted[..limit] else sorted
  }

  /** `list_rule_set_versions`: every row fetched is rebuilt, and one that fails its integrity check fails the call. */
  function ListVersions<B>(rows: seq<VersionRow<B>>, loads: Loader<B>, key: string, limit: int, before: Option<int>): (r: Result<seq<VersionRow<B>>, ListError>)
    ensures r.Err? && r.error == BadRequest <==> limit < 1 || limit > 100 || (before.Some? && before.value < 1)
  {
    if !Paging.PageSizeOk(limit) || (before.Some? && before.value < 1) then Err(BadRequest)
    else
      var fetched := FetchVersions(rows, key, limit, before);
      if exists i :: 0 <= i < |fetched| && !loads(fetched[i]) then Err(Corrupt) else Ok(fetched)
  }

  datatype VersionPage<B> = VersionPage(data: seq<VersionRow<B>>, nextBefore: Option<int>)

  /** The endpoint announces a next page when this one is full and does not end at version 1. */
  function Paginate<B>(versions: seq<VersionRow<B>>, limit: int, before: Option<int>): Result<VersionPage<B>, ListError> {
    if versions == [] && before.None? then Err(NotFound)
    else if |versions| == limit && limit > 0 && versions[limit - 1].version > 1 then
      Ok(VersionPage(versions, Some(versions[limit - 1].version)))
    else Ok(VersionPage(versions, None))
  }

  function ListPage<B>(rows: seq<VersionRow<B>>, loads: Loader<B>, key: string, limit: int, before: Option<int>): (r: Result<VersionPage<B>, ListError>)
    ensures r.Err? && r.error == BadRequest <==> limit < 1 || limit > 100 || (before.Some? && before.value < 2)
  {
    if before.Some? && before.value < 2 then Err(BadRequest)
    else
      match ListVersions(rows, loads, key, limit, before)
      case Err(e) => Err(e)
      case Ok(versions) => Paginate(versions, limit, before)
  }

  /** How a walk stands: more pages to read, the last one read, or a page refused. */
  datatype End = MoreToRead | Finished | Stopped(error: ListError)

  /** A walk whose first page is answered so, and which goes on with the rest if there is a next page. */
  function Continue<B>(answer: Result<VersionPage<B>, ListError>, rest: (seq<VersionRow<B>>, End)): (seq<VersionRow<B>>, End) {
    match answer
    case Err(e) => ([], Stopped(e))
    case Ok(page) => if page.nextBefore.None? then (page.data, Finished) else (page.data + rest.0, rest.1)
  }

  /** The endpoint over one state of the table: what it answers for each `before_version`. */
  type Reader<!B> = Option<int> -> Result<VersionPage<B>, ListError>

  function ReaderOf<B>(rows: seq<VersionRow<B>>, loads: Loader<B>, key: string, limit: int): Reader<B> {
    (before: Option<int>) => ListPage(rows, loads, key, limit, before)
  }

  /** Follow `next_before_version` from page to page. */
  function Follow<B>(readers: seq<Reader<B>>, before: Option<int>): (seq<VersionRow<B>>, End) {
    if readers == [] then ([], MoreToRead)
    else
      var answer := readers[0](before);
      if answer.Err? || answer.value.nextBefore.None? then Continue(answer, ([], MoreToRead))
      else Continue(answer, Follow(readers[1..], answer.value.nextBefore))
  }

  function Readers<B>(tables: seq<seq<VersionRow<B>>>, loads: Loader<B>, key: string, limit: int): (r: seq<Reader<B>>)
    ensures |r| == |tables|
  {
    seq(|tables|, i requires 0 <= i < |tables| => ReaderOf(tables[i], loads, key, limit))
  }

  /** A client's walk; tables[i] is the table when page i is read. */
  function Walk<B>(tables: seq<seq<VersionRow<B>>>, loads: Loader<B>, key: string, limit: int): (seq<VersionRow<B>>, End) {
    Follow(Readers(tables, loads, key, limit), None)
  }

  // ---------------------------------------------------------------------------
  // One page
  // ---------------------------------------------------------------------------

  /** The `count` versions from `top` downwards. */
  function Down<B>(history: seq<VersionRow<B>>, top: nat, count: nat): (r: seq<VersionRow<B>>)
    requires count <= top <= |history|
    ensures |r| == count
  {
    seq(count, i requires 0 <= i < count => history[top - 1 - i])
  }

  ghost predicate Numbered<B>(history: seq<VersionRow<B>>) {
    forall i :: 0 <= i < |history| ==> history[i].version == i + 1
  }

  lemma {:induction false} OlderIsPrefix<B>(history: seq<VersionRow<B>>, before: Option<int>)
    requires Numbered(history) && (before.Some? ==> before.value >= 1)
    ensures Older(history, before) ==
            if before.Some? && before.value - 1 < |history| then history[..before.value - 1] else history
  {
    if history != [] {
      var n := |history| - 1;
      OlderIsPrefix(history[..n], before);
      if before.Some? && before.value - 1 <= n {
        assert history[..n][..before.value - 1] == history[..before.value - 1];
        assert Older(history, before) == Older(history[..n], before) + [];
      } else {
        assert Older(history, before) == Older(history[..n], before) + [history[n]];
        assert history[..n] + [history[n]] == history;
      }
    }
  }

  lemma SortedIsReversed<B(!new)>(history: seq<VersionRow<B>>, top: nat)
    requires Numbered(history) && top <= |history|
    ensures SortDescending(history[..top], VersionKey) == Down(history, top, top)
  {
    var key: VersionRow<B> -> Key := VersionKey;
    var down := Down(history, top, top);
    SortSorts(history[..top], key);
    forall x ensures x in down <==> x in history[..top] {
      if x in history[..top] {
        var i :| 0 <= i < top && history[..top][i] == x;
        assert down[top - 1 - i] == x;
      }
      if x in down {
        var i :| 0 <= i < top && down[i] == x;
        assert history[..top][top - 1 - i] == x;
      }
    }
    DescendingIsUnique(SortDescending(history[..top], key), down, key);
  }

  /** The version the page starts at. */
  function TopOf(n: nat, before: Option<int>): int {
    if before.Some? && before.value - 1 < n then before.value - 1 else n
  }

  lemma FetchIsDown<B(!new)>(rows: seq<VersionRow<B>>, key: string, limit: nat, before: Option<int>)
    requires Consecutive(rows) && (before.Some? ==> before.value >= 1)
    ensures var h := History(rows, key);
            var top := TopOf(|h|, before);
            0 <= top <= |h| && FetchVersions(rows, key, limit, before) == Down(h, top, Min(limit, top))
  {
    var h := History(rows, key);
    var top := TopOf(|h|, before);
    OlderIsPrefix(h, before);
    assert h[..|h|] == h;
    assert Older(h, before) == h[..top];
    SortedIsReversed(h, top);
    TopOfDown(h, top, limit);
  }

  function Min(x: nat, y: nat): nat { if x < y then x else y }

  /** The `count` versions from `top` downwards all load. */
  predicate AllLoad<B>(history: seq<VersionRow<B>>, loads: Loader<B>, top: nat, count: nat)
    requires count <= top <= |history|
  {
    forall i :: top - count <= i < top ==> loads(history[i])
  }

  lemma DownLoads<B>(history: seq<VersionRow<B>>, loads: Loader<B>, top: nat, count: nat)
    requires count <= top <= |history|
    ensures AllLoad(history, loads, top, count) <==> forall i :: 0 <= i < count ==> loads(Down(history, top, count)[i])
  {
    var down := Down(history, top, count);
    if forall i :: 0 <= i < count ==> loads(down[i]) {
      forall i | top - count <= i < top ensures loads(history[i]) { assert down[top - 1 - i] == history[i]; }
    }
  }

  /** The call answers the next versions below its bound, newest first, or fails because one of them does not load. */
  lemma ListIsDown<B(!new)>(rows: seq<VersionRow<B>>, loads: Loader<B>, key: string, limit: int, before: Option<int>)
    requires Consecutive(rows) && Paging.PageSizeOk(limit) && (before.Some? ==> before.value >= 1)
    ensures var h := History(rows, key);
            var top := TopOf(|h|, before);
            0 <= top <= |h| &&
            ListVersions(rows, loads, key, limit, before) ==
            if AllLoad(h, loads, top, Min(limit, top)) then Ok(Down(h, top, Min(limit, top))) else Err(Corrupt)
  {
    FetchIsDown(rows, key, limit, before);
    DownLoads(History(rows, key), loads, TopOf(|History(rows, key)|, before), Min(limit, TopOf(|History(rows, key)|, before)));
  }

  lemma TopOfDown<B>(h: seq<VersionRow<B>>, top: nat, limit: nat)
    requires top <= |h|
    ensures limit < top ==> Down(h, top, top)[..limit] == Down(h, top, limit)
  {
  }

  /** The next page, as a slice of the history read backwards. */
  function PageDown<B>(h: seq<VersionRow<B>>, limit: int, top: nat): VersionPage<B>
    requires limit >= 1 && top <= |h|
  {
    if limit < top then VersionPage(Down(h, top, limit), Some(top - limit + 1)) else VersionPage(Down(h, top, top), None)
  }

  /** What the endpoint answers for the page that starts at version `top`. */
  function Answer<B>(h: seq<VersionRow<B>>, loads: Loader<B>, limit: int, top: nat): Result<VersionPage<B>, ListError>
    requires limit >= 1 && top <= |h|
  {
    if AllLoad(h, loads, top, Min(limit, top)) then Ok(PageDown(h, limit, top)) else Err(Corrupt)
  }

  lemma PageIsDown<B(!new)>(rows: seq<VersionRow<B>>, loads: Loader<B>, key: string, limit: int, before: Option<int>, top: nat)
    requires Consecutive(rows) && Paging.PageSizeOk(limit) && (before.Some? ==> before.value >= 2)
    requires History(rows, key) != [] && top == TopOf(|History(rows, key)|, before)
    ensures 1 <= top <= |History(rows, key)|
    ensures ListPage(rows, loads, key, limit, before) == Answer(History(rows, key), loads, limit, top)
  {
    ListIsDown(rows, loads, key, limit, before);
    PaginateDown(History(rows, key), limit, before, top);
  }

  lemma PaginateDown<B>(h: seq<VersionRow<B>>, limit: nat, before: Option<int>, top: nat)
    requires Numbered(h) && 1 <= limit && 1 <= top <= |h|
    ensures Paginate(Down(h, top, Min(limit, top)), limit, before) == Ok(PageDown(h, limit, top))
  {
    if limit <= top { assert h[top - limit].version == top - limit + 1; }
  }

  // ---------------------------------------------------------------------------
  // The walk
  // ---------------------------------------------------------------------------

  /** New versions may be published between pages; they are appended to the key's history. */
  ghost predicate Publishing<B>(tables: seq<seq<VersionRow<B>>>, key: string) {
    && (forall i :: 0 <= i < |tables| ==> Consecutive(tables[i]))
    && (forall i, j :: 0 <= i <= j < |tables| ==> History(tables[i], key) <= History(tables[j], key))
  }

  /** How many versions that many pages from `top` return, and how the walk stands after them. */
  function Yield<B>(h: seq<VersionRow<B>>, loads: Loader<B>, pages: nat, limit: nat, top: nat): (r: (nat, End))
    requires limit >= 1 && top <= |h|
    ensures r.0 <= top
    decreases pages
  {
    if pages == 0 then (0, MoreToRead)
    else if !AllLoad(h, loads, top, Min(limit, top)) then (0, Stopped(Corrupt))
    else if limit >= top then (top, Finished)
    else
      var (count, end) := Yield(h, loads, pages - 1, limit, top - limit);
      (limit + count, end)
  }

  ghost predicate WalksDown<B>(walk: (seq<VersionRow<B>>, End), pages: nat, limit: nat, history: seq<VersionRow<B>>, loads: Loader<B>, top: nat)
    requires limit >= 1 && top <= |history|
  {
    var (count, end) := Yield(history, loads, pages, limit, top);
    walk == (Down(history, top, count), end)
  }

  lemma JoinDown<B>(history: seq<VersionRow<B>>, top: nat, count: nat, more: nat)
    requires count + more <= top <= |history|
    ensures Down(history, top, count) + Down(history, top - count, more) == Down(history, top, count + more)
  {
  }

  /** The first page and the rest of the walk. */
  lemma FirstPage<B>(history: seq<VersionRow<B>>, loads: Loader<B>, pages: nat, limit: nat, top: nat, rest: (seq<VersionRow<B>>, End))
    requires pages >= 1 && 1 <= limit && 1 <= top <= |history|
    requires limit < top ==> WalksDown(rest, pages - 1, limit, history, loads, top - limit)
    ensures WalksDown(Continue(Answer(history, loads, limit, top), rest), pages, limit, history, loads, top)
  {
    if AllLoad(history, loads, top, Min(limit, top)) && limit < top {
      JoinDown(history, top, limit, Yield(history, loads, pages - 1, limit, top - limit).0);
    }
  }

  /** The page that starts at version t of this history, whatever has been published since. */
  ghost predicate ReadsDown<B>(reader: Reader<B>, history: seq<VersionRow<B>>, loads: Loader<B>, limit: nat)
    requires limit >= 1
  {
    forall t: nat :: 1 <= t <= |history| ==> reader(Some(t + 1)) == Answer(history, loads, limit, t)
  }

  lemma SameAnswer<B>(history: seq<VersionRow<B>>, longer: seq<VersionRow<B>>, loads: Loader<B>, limit: nat, top: nat)
    requires history <= longer && limit >= 1 && top <= |history|
    ensures Answer(longer, loads, limit, top) == Answer(history, loads, limit, top)
  {
    assert Down(longer, top, Min(limit, top)) == Down(history, top, Min(limit, top));
    assert AllLoad(longer, loads, top, Min(limit, top)) <==> AllLoad(history, loads, top, Min(limit, top));
  }

  lemma TableReadsDown<B(!new)>(rows: seq<VersionRow<B>>, loads: Loader<B>, key: string, limit: int, history: seq<VersionRow<B>>)
    requires Consecutive(rows) && Paging.PageSizeOk(limit) && history <= History(rows, key)
    ensures ReadsDown(ReaderOf(rows, loads, key, limit), history, loads, limit)
  {
    forall t: nat | 1 <= t <= |history|
      ensures ReaderOf(rows, loads, key, limit)(Some(t + 1)) == Answer(history, loads, limit, t)
    {
      PageIsDown(rows, loads, key, limit, Some(t + 1), t);
      SameAnswer(history, History(rows, key), loads, limit, t);
    }
  }

  lemma FollowUnfolds<B>(readers: seq<Reader<B>>, before: Option<int>, next: Option<int>)
    requires readers != []
    requires var answer := readers[0](before); answer.Ok? && answer.value.nextBefore.Some? ==> answer.value.nextBefore == next
    ensures Follow(readers, before) == Continue(readers[0](before), Follow(readers[1..], next))
  {
  }

  lemma {:induction false} FollowDown<B>(readers: seq<Reader<B>>, history: seq<VersionRow<B>>, loads: Loader<B>, limit: nat, before: Option<int>, top: nat)
    requires limit >= 1 && 1 <= top <= |history|
    requires forall i :: 0 <= i < |readers| ==> ReadsDown(readers[i], history, loads, limit)
    requires before == Some(top + 1) || (readers != [] && readers[0](before) == Answer(history, loads, limit, top))
    ensures WalksDown(Follow(readers, before), |readers|, limit, history, loads, top)
    decreases |readers|
  {
    if readers != [] {
      var next := Some(top - limit + 1);
      assert readers[0](before) == Answer(history, loads, limit, top) by { assert ReadsDown(readers[0], history, loads, limit); }
      if limit < top {
        assert forall i :: 0 <= i < |readers| - 1 ==> readers[1..][i] == readers[i + 1];
        FollowDown(readers[1..], history, loads, limit, next, top - limit);
      }
      FollowUnfolds(readers, before, next);
      FirstPage(history, loads, |readers|, limit, top, Follow(readers[1..], next));
    }
  }

  /** A whole walk over a key with versions: as many as its pages yield, from the top. */
  lemma WalkDown<B(!new)>(tables: seq<seq<VersionRow<B>>>, loads: Loader<B>, key: string, limit: int)
    requires Publishing(tables, key) && Paging.PageSizeOk(limit) && tables != [] && History(tables[0], key) != []
    ensures WalksDown(Walk(tables, loads, key, limit), |tables|, limit, History(tables[0], key), loads, |History(tables[0], key)|)
  {
    var h, readers := History(tables[0], key), Readers(tables, loads, key, limit);
    forall i | 0 <= i < |readers| ensures ReadsDown(readers[i], h, loads, limit) {
      TableReadsDown(tables[i], loads, key, limit, h);
    }
    PageIsDown(tables[0], loads, key, limit, None, |h|);
    FollowDown(readers, h, loads, limit, None, |h|);
  }

  // ---------------------------------------------------------------------------
  // What a walk yields
  // ---------------------------------------------------------------------------

  /** How many versions that many full pages hold. */
  function Capacity(pages: nat, limit: nat): nat {
    if pages == 0 then 0 else Capacity(pages - 1, limit) + limit
  }

  lemma {:induction false} CapacityIsProduct(pages: nat, limit: nat)
    ensures Capacity(pages, limit) == pages * limit
  {
    if pages > 0 { CapacityIsProduct(pages - 1, limit); }
  }

  /** What is returned loads, and all of it is returned when the walk has finished. */
  lemma {:induction false} YieldLoads<B>(h: seq<VersionRow<B>>, loads: Loader<B>, pages: nat, limit: nat, top: nat)
    requires limit >= 1 && 1 <= top <= |h|
    ensures var (count, end) := Yield(h, loads, pages, limit, top);
            AllLoad(h, loads, top, count) && (end.Finished? ==> count == top)
    decreases pages
  {
    if pages > 0 && AllLoad(h, loads, top, Min(limit, top)) && limit < top {
      YieldLoads(h, loads, pages - 1, limit, top - limit);
    }
  }

  /** If every version loads, the walk goes on to version 1, as far as its pages reach. */
  lemma {:induction false} YieldAll<B>(h: seq<VersionRow<B>>, loads: Loader<B>, pages: nat, limit: nat, top: nat)
    requires limit >= 1 && 1 <= top <= |h| && AllLoad(h, loads, top, top)
    ensures Yield(h, loads, pages, limit, top) ==
            if Capacity(pages, limit) >= top then (top, Finished) else (Capacity(pages, limit), MoreToRead)
    decreases pages
  {
    if pages > 0 && limit < top { YieldAll(h, loads, pages - 1, limit, top - limit); }
  }

  /** The highest version, up to `top`, that does not load. */
  ghost predicate HighestCorrupt<B>(h: seq<VersionRow<B>>, loads: Loader<B>, top: nat, bad: nat)
    requires top <= |h|
  {
    1 <= bad <= top && !loads(h[bad - 1]) && AllLoad(h, loads, top, top - bad)
  }

  lemma {:induction false} SomeIsHighest<B>(h: seq<VersionRow<B>>, loads: Loader<B>, top: nat) returns (bad: nat)
    requires top <= |h| && !AllLoad(h, loads, top, top)
    ensures HighestCorrupt(h, loads, top, bad)
  {
    if !loads(h[top - 1]) {
      bad := top;
    } else {
      bad := SomeIsHighest(h, loads, top - 1);
    }
  }

  /** How many pages lie wholly above a version. */
  function PagesAbove(limit: nat, top: nat, bad: nat): nat
    requires limit >= 1 && bad <= top
  {
    if top - bad < limit then 0 else 1 + PagesAbove(limit, top - limit, bad)
  }

  lemma {:induction false} PagesAboveIsQuotient(limit: nat, top: nat, bad: nat)
    requires limit >= 1 && bad <= top
    ensures PagesAbove(limit, top, bad) == (top - bad) / limit
    decreases top
  {
    if top - bad >= limit {
      PagesAboveIsQuotient(limit, top - limit, bad);
      QuotientDown(top - bad, limit);
    }
  }

  lemma QuotientDown(x: nat, limit: nat)
    requires 1 <= limit <= x
    ensures x / limit == (x - limit) / limit + 1
  {
    var q, r := (x - limit) / limit, (x - limit) % limit;
    assert x == (q + 1) * limit + r;
    QuotientOf(x, q + 1, r, limit);
  }

  lemma TimesMonotone(x: nat, y: nat, limit: nat)
    ensures x <= y ==> x * limit <= y * limit
  {
  }

  lemma QuotientOf(x: nat, q: nat, r: nat, limit: nat)
    requires limit >= 1 && x == q * limit + r && r < limit
    ensures x / limit == q
  {
    var p := x / limit;
    assert x == p * limit + x % limit;
    TimesMonotone(p + 1, q, limit);
    TimesMonotone(q + 1, p, limit);
  }

  /** Otherwise it returns the pages above the highest version that does not load, and stops there. */
  lemma {:induction false} YieldStops<B>(h: seq<VersionRow<B>>, loads: Loader<B>, pages: nat, limit: nat, top: nat, bad: nat)
    requires limit >= 1 && top <= |h| && HighestCorrupt(h, loads, top, bad)
    ensures var above := PagesAbove(limit, top, bad);
            Yield(h, loads, pages, limit, top) ==
            if pages > above then (Capacity(above, limit), Stopped(Corrupt)) else (Capacity(pages, limit), MoreToRead)
    decreases pages
  {
    if pages > 0 && top - bad >= limit {
      YieldStops(h, loads, pages - 1, limit, top - limit, bad);
    }
  }

  /** The rows of a walk are the next versions below its top, and all of them load. */
  lemma RowsOfWalk<B>(rows: seq<VersionRow<B>>, h: seq<VersionRow<B>>, loads: Loader<B>, top: nat, count: nat)
    requires Numbered(h) && count <= top <= |h| && rows == Down(h, top, count) && AllLoad(h, loads, top, count)
    ensures forall i :: 0 <= i < |rows| ==>
              rows[i].version == top - i && rows[i] == h[top - 1 - i] && loads(rows[i])
  {
  }

  lemma EndOfWalk<B>(h: seq<VersionRow<B>>, loads: Loader<B>, pages: nat, limit: nat)
    requires limit >= 1 && h != []
    ensures var n := |h|;
            var (count, end) := Yield(h, loads, pages, limit, n);
            && AllLoad(h, loads, n, count)
            && (end == Finished ==> count == n)
            && (Capacity(pages, limit) >= n ==> (end == Finished <==> AllLoad(h, loads, n, n)))
            && (Capacity(pages, limit) < n && AllLoad(h, loads, n, n) ==> end == MoreToRead && count == Capacity(pages, limit))
  {
    YieldLoads(h, loads, pages, limit, |h|);
    if AllLoad(h, loads, |h|, |h|) { YieldAll(h, loads, pages, limit, |h|); }
  }

  /**
   The rows are versions n, n-1, ... with no gap and no repeat, all of them versions that load; and pages enough
   for n versions get to version 1 without an error exactly when every one of the n loads.
   */
  ghost predicate YieldsVersions<B>(walk: (seq<VersionRow<B>>, End), h: seq<VersionRow<B>>, loads: Loader<B>, pages: nat, limit: nat) {
    var (rows, end) := walk;
    var n := |h|;
    && |rows| <= n
    && (forall i :: 0 <= i < |rows| ==> rows[i].version == n - i && rows[i] == h[n - 1 - i] && loads(rows[i]))
    && (end == Finished ==> |rows| == n)
    && (pages * limit >= n ==> (end == Finished <==> AllLoad(h, loads, n, n)))
    && (pages * limit < n && AllLoad(h, loads, n, n) ==> end == MoreToRead && |rows| == pages * limit)
  }

  lemma DownYields<B>(walk: (seq<VersionRow<B>>, End), h: seq<VersionRow<B>>, loads: Loader<B>, pages: nat, limit: nat)
    requires limit >= 1 && h != [] && Numbered(h) && WalksDown(walk, pages, limit, h, loads, |h|)
    ensures YieldsVersions(walk, h, loads, pages, limit)
  {
    CapacityIsProduct(pages, limit);
    EndOfWalk(h, loads, pages, limit);
    RowsOfWalk(walk.0, h, loads, |h|, Yield(h, loads, pages, limit, |h|).0);
  }

  /** Version paging: whatever is published meanwhile, following the pages yields a key's versions, newest first. */
  lemma VersionWalk<B(!new)>(tables: seq<seq<VersionRow<B>>>, loads: Loader<B>, key: string, limit: int)
    requires Publishing(tables, key) && Paging.PageSizeOk(limit) && tables != []
    requires History(tables[0], key) != []
    ensures YieldsVersions(Walk(tables, loads, key, limit), History(tables[0], key), loads, |tables|, limit)
  {
    var h := History(tables[0], key);
    WalkDown(tables, loads, key, limit);
    DownYields(Walk(tables, loads, key, limit), h, loads, |tables|, limit);
  }

  /**
   With `bad` the highest version that does not load, exactly the full pages above it are returned, and the page
   that holds it is refused.
   */
  ghost predicate StopsAt<B>(walk: (seq<VersionRow<B>>, End), n: nat, bad: nat, pages: nat, limit: nat)
    requires limit >= 1 && bad <= n
  {
    var above := (n - bad) / limit;
    if pages > above then walk.1 == Stopped(Corrupt) && |walk.0| == above * limit
    else walk.1 == MoreToRead && |walk.0| == pages * limit
  }

  lemma DownStops<B>(walk: (seq<VersionRow<B>>, End), h: seq<VersionRow<B>>, loads: Loader<B>, pages: nat, limit: nat, bad: nat)
    requires limit >= 1 && HighestCorrupt(h, loads, |h|, bad) && WalksDown(walk, pages, limit, h, loads, |h|)
    ensures StopsAt(walk, |h|, bad, pages, limit)
  {
    YieldStops(h, loads, pages, limit, |h|, bad);
    PagesAboveIsQuotient(limit, |h|, bad);
    CapacityIsProduct(pages, limit);
    CapacityIsProduct(PagesAbove(limit, |h|, bad), limit);
  }

  /** A version that does not load stops every walk at its page. */
  lemma CorruptVersionStopsWalk<B(!new)>(tables: seq<seq<VersionRow<B>>>, loads: Loader<B>, key: string, limit: int, bad: nat)
    requires Publishing(tables, key) && Paging.PageSizeOk(limit) && tables != []
    requires HighestCorrupt(History(tables[0], key), loads, |History(tables[0], key)|, bad)
    ensures StopsAt(Walk(tables, loads, key, limit), |History(tables[0], key)|, bad, |tables|, limit)
  {
    var h := History(tables[0], key);
    WalkDown(tables, loads, key, limit);
    DownStops(Walk(tables, loads, key, limit), h, loads, |tables|, limit, bad);
  }

  lemma StoppedIfEnough<B>(walk: (seq<VersionRow<B>>, End), n: nat, bad: nat, pages: nat, limit: nat)
    requires limit >= 1 && 1 <= bad <= n <= pages * limit && StopsAt(walk, n, bad, pages, limit)
    ensures walk.1 == Stopped(Corrupt)
  {
    BelowCapacity(n, bad, limit, pages);
  }

  /** So a walk with pages enough is either finished or stopped by such a version. */
  lemma WalkFinishesOrStops<B(!new)>(tables: seq<seq<VersionRow<B>>>, loads: Loader<B>, key: string, limit: int)
    requires Publishing(tables, key) && Paging.PageSizeOk(limit) && tables != []
    requires History(tables[0], key) != [] && |tables| * limit >= |History(tables[0], key)|
    ensures var h := History(tables[0], key);
            Walk(tables, loads, key, limit).1 == if AllLoad(h, loads, |h|, |h|) then Finished else Stopped(Corrupt)
  {
    var h := History(tables[0], key);
    var walk := Walk(tables, loads, key, limit);
    if AllLoad(h, loads, |h|, |h|) {
      VersionWalk(tables, loads, key, limit);
      assert YieldsVersions(walk, h, loads, |tables|, limit);
    } else {
      var bad := SomeIsHighest(h, loads, |h|);
      CorruptVersionStopsWalk(tables, loads, key, limit, bad);
      StoppedIfEnough(walk, |h|, bad, |tables|, limit);
    }
  }

  lemma BelowCapacity(n: nat, bad: nat, limit: nat, pages: nat)
    requires limit >= 1 && 1 <= bad <= n <= pages * limit
    ensures (n - bad) / limit < pages
  {
    var above := (n - bad) / limit;
    assert above * limit <= n - bad;
    TimesMonotone(pages, above, limit);
  }

  /**
   A page is refused exactly when a version on it does not load; any other is not empty, and announces a next
   page iff an older version exists.
   */
  lemma NoEmptyPage<B(!new)>(rows: seq<VersionRow<B>>, loads: Loader<B>, key: string, limit: int, before: Option<int>)
    requires Consecutive(rows) && Paging.PageSizeOk(limit) && (before.Some? ==> before.value >= 2)
    requires History(rows, key) != []
    ensures var h := History(rows, key);
            var top := TopOf(|h|, before);
            var answer := ListPage(rows, loads, key, limit, before);
            && 1 <= top <= |h|
            && (answer.Ok? <==> AllLoad(h, loads, top, Min(limit, top)))
            && (answer.Err? ==> answer.error == Corrupt)
            && (answer.Ok? ==>
                  var page := answer.value;
                  && page.data != []
                  && (page.nextBefore.Some? <==> page.data[|page.data| - 1].version > 1)
                  && (page.nextBefore.Some? ==> page.nextBefore.value == page.data[|page.data| - 1].version >= 2))
  {
    PageIsDown(rows, loads, key, limit, before, TopOf(|History(rows, key)|, before));
  }
}

/** Reading a run page by page: history requests that follow a cursor, and scans over segment pages. */
module PagedReads {
  import opened Wrappers
  import opened MetricLog
  import opened SegmentCatalog
  import opened CatalogStore

  // ---------------------------------------------------------- rows after a cursor

  /** The rows past a cursor, in order. */
  function RowsAfter(rows: seq<Row>, after: int): seq<Row> {
    if rows == [] then []
    else if after < rows[0].sequence then [rows[0]] + RowsAfter(rows[1..], after)
    else RowsAfter(rows[1..], after)
  }

  ghost predicate Ascending(rows: seq<Row>) {
    forall i, j :: 0 <= i < j < |rows| ==> rows[i].sequence < rows[j].sequence
  }

  lemma {:induction false} RowsAfterConcat(a: seq<Row>, b: seq<Row>, after: int)
    ensures RowsAfter(a + b, after) == RowsAfter(a, after) + RowsAfter(b, after)
    decreases |a|
  {
    if a == [] {
      assert a + b == b;
    } else {
      assert (a + b)[1..] == a[1..] + b;
      RowsAfterConcat(a[1..], b, after);
    }
  }

  lemma {:induction false} AllAfter(rows: seq<Row>, after: int)
    requires forall i :: 0 <= i < |rows| ==> after < rows[i].sequence
    ensures RowsAfter(rows, after) == rows
  {
    if rows != [] { AllAfter(rows[1..], after); }
  }

  lemma {:induction false} NoneAfter(rows: seq<Row>, after: int)
    requires forall i :: 0 <= i < |rows| ==> rows[i].sequence <= after
    ensures RowsAfter(rows, after) == []
  {
    if rows != [] { NoneAfter(rows[1..], after); }
  }

  lemma {:induction false} AfterMembers(rows: seq<Row>, after: int)
    ensures forall r :: r in RowsAfter(rows, after) <==> r in rows && after < r.sequence
  {
    if rows != [] {
      AfterMembers(rows[1..], after);
      assert forall r :: r in rows <==> r == rows[0] || r in rows[1..];
    }
  }

  /** Of ascending rows the ones past a cursor are a suffix. */
  lemma {:induction false} AfterIsSuffixOfRows(rows: seq<Row>, after: int) returns (k: nat)
    requires Ascending(rows)
    ensures k <= |rows| && RowsAfter(rows, after) == rows[k..]
    ensures forall i :: 0 <= i < k ==> rows[i].sequence <= after
    ensures forall i :: k <= i < |rows| ==> after < rows[i].sequence
  {
    if rows == [] {
      k := 0;
    } else if after < rows[0].sequence {
      k := 0;
      AllAfter(rows, after);
    } else {
      var k' := AfterIsSuffixOfRows(rows[1..], after);
      k := k' + 1;
      assert rows[1..][k'..] == rows[k..];
      assert forall i :: 0 < i < |rows| ==> rows[i] == rows[1..][i - 1];
    }
  }

  /** Moving the cursor to the end of what was returned leaves exactly the rest. */
  lemma RestAfter(rows: seq<Row>, after: int, n: nat)
    requires Ascending(rows) && 0 < n <= |RowsAfter(rows, after)|
    ensures var read := RowsAfter(rows, after)[..n];
            && after < read[n - 1].sequence
            && RowsAfter(rows, after) == read + RowsAfter(rows, read[n - 1].sequence)
  {
    hide *;
    var k := AfterIsSuffixOfRows(rows, after);
    var cursor := rows[k + n - 1].sequence;
    var j := AfterIsSuffixOfRows(rows, cursor);
    SplitPoint(rows, cursor, k + n, j);
    assert rows[k..][..n] == rows[k..k + n] && rows[k..][n - 1] == rows[k + n - 1];
    assert rows[k..] == rows[k..k + n] + rows[k + n..];
  }

  lemma SplitPoint(rows: seq<Row>, cursor: int, i: nat, j: nat)
    requires 0 < i <= |rows| && j <= |rows| && Ascending(rows) && rows[i - 1].sequence == cursor
    requires forall m :: 0 <= m < j ==> rows[m].sequence <= cursor
    requires forall m :: j <= m < |rows| ==> cursor < rows[m].sequence
    ensures i == j
  {
    if i < |rows| { assert rows[i - 1].sequence < rows[i].sequence; }
  }

  // --------------------------------------------------------- one history request

  lemma LogIsAscending(segments: seq<Segment>)
    requires Tiled(segments)
    ensures Ascending(LogOf(segments))
  {
    if segments != [] {
      hide LogOf, Tiled;
      TiledLogIsConsecutive(segments);
    } else {
      assert Paths(segments) == [];
    }
  }

  /** Rows of segments that end before the cursor contribute nothing. */
  lemma PageRows(segments: seq<Segment>, after: int)
    requires Tiled(segments)
    ensures RowsAfter(LogOf(After(segments, after)), after) == RowsAfter(LogOf(segments), after)
  {
    hide Tiled, LogOf, After, RowsAfter;
    if segments == [] || segments[|segments| - 1].last <= after {
      AfterNothing(segments, after);
      LogEndsBefore(segments, after);
      LogOfNothing();
      NoneAfter(LogOf(segments), after);
      NoneAfter([], after);
    } else {
      var k := AfterIsSuffix(segments, after);
      assert segments == segments[..k] + segments[k..];
      LogConcat(segments[..k], segments[k..]);
      RowsAfterConcat(LogOf(segments[..k]), LogOf(segments[k..]), after);
      TiledSlice(segments, 0, k);
      assert segments[0..k] == segments[..k];
      LogEndsBefore(segments[..k], after);
      NoneAfter(LogOf(segments[..k]), after);
    }
  }

  lemma LogEndsBefore(segments: seq<Segment>, after: int)
    requires Tiled(segments) && (segments != [] ==> segments[|segments| - 1].last <= after)
    ensures forall i :: 0 <= i < |LogOf(segments)| ==> LogOf(segments)[i].sequence <= after
  {
    if segments == [] {
      assert Paths(segments) == [];
    } else {
      hide LogOf, Tiled;
      TiledLogIsConsecutive(segments);
    }
  }

  /** Appends a segment's rows past the cursor until the limit is reached. */
  method ReadSegment(rows: seq<Row>, after: int, limit: nat, read: seq<Row>) returns (more: seq<Row>)
    requires |read| <= limit
    ensures more == (read + RowsAfter(rows, after))[..Min(limit, |read| + |RowsAfter(rows, after)|)]
  {
    more := read;
    var n := 0;
    assert rows[..0] == [];
    while n < |rows|
      invariant n <= |rows| && more == read + RowsAfter(rows[..n], after) && |more| <= limit
    {
      assert rows[..n + 1] == rows[..n] + [rows[n]] && rows == rows[..n] + rows[n..];
      RowsAfterConcat(rows[..n], [rows[n]], after);
      RowsAfterConcat(rows[..n], rows[n..], after);
      if |more| >= limit {
        assert (read + RowsAfter(rows, after))[..limit] == more;
        return;
      }
      if after < rows[n].sequence { more := more + [rows[n]]; }
      n := n + 1;
    }
    assert rows[..n] == rows;
  }

  datatype HistoryPage = HistoryPage(rows: seq<Row>, nextAfter: Option<nat>)

  /** The response to one history request, said in terms of the log alone, for pages that are not full. */
  ghost predicate Answers(segments: seq<Segment>, after: int, limit: nat, page: HistoryPage) {
    && page.rows <= RowsAfter(LogOf(segments), after) && |page.rows| <= limit
    && (page.nextAfter.Some? ==> page.rows != [] && page.nextAfter.value == page.rows[|page.rows| - 1].sequence)
    && (page.nextAfter.None? ==> page.rows == RowsAfter(LogOf(segments), after))
  }

  /** A page below the limit has all rows past the cursor of the segments of one listing, from the first unread on. */
  ghost predicate FillsPage(segments: seq<Segment>, after: int, limit: nat, page: HistoryPage) {
    |page.rows| == limit || exists k: nat :: IsRestOfListing(segments, after, k, page.rows)
  }

  ghost predicate IsRestOfListing(segments: seq<Segment>, after: int, k: nat, rows: seq<Row>) {
    && k <= |segments| && (k > 0 ==> segments[k - 1].last <= after)
    && rows == RowsAfter(LogOf(segments[k..Min(k + MAX_SEGMENTS_PER_QUERY, |segments|)]), after)
  }

  lemma ListedFillsPage(segments: seq<Segment>, after: int, limit: nat, page: HistoryPage)
    requires Tiled(segments)
    requires |page.rows| == limit || page.rows == RowsAfter(LogOf(Page(segments, after)), after)
    ensures FillsPage(segments, after, limit, page)
  {
    hide Tiled, LogOf, RowsAfter, After;
    if |page.rows| != limit {
      var k := |segments|;
      if segments != [] && after < segments[|segments| - 1].last {
        k := AfterIsSuffix(segments, after);
      } else {
        AfterNothing(segments, after);
      }
      assert Page(segments, after) == segments[k..Min(k + MAX_SEGMENTS_PER_QUERY, |segments|)];
      assert IsRestOfListing(segments, after, k, page.rows);
    }
  }

  method History(segments: seq<Segment>, after: Option<nat>, limit: nat) returns (page: HistoryPage)
    requires Tiled(segments) && limit > 0
    ensures Answers(segments, CursorOf(after), limit, page)
    ensures FillsPage(segments, CursorOf(after), limit, page)
  {
    hide Tiled, LogOf, RowsAfter, After, FillsPage;
    var cursor := CursorOf(after);
    var listed := Page(segments, cursor);
    var rows: seq<Row> := [];
    var n := 0;
    PageIsPrefix(segments, cursor);
    LogOfNone(listed);
    NoneAfter([], cursor);
    while n < |listed| && |rows| < limit
      invariant n <= |listed| && |rows| <= limit
      invariant rows <= RowsAfter(LogOf(listed[..n]), cursor)
      invariant |rows| == limit || rows == RowsAfter(LogOf(listed[..n]), cursor)
    {
      NextListed(listed, n, cursor);
      rows := ReadSegment(RowsOf(listed[n].path), cursor, limit, rows);
      n := n + 1;
    }
    PrefixOfPage(segments, cursor, n);
    var nextAfter := None;
    if |rows| == limit { nextAfter := Some(rows[|rows| - 1].sequence); }
    if nextAfter.None? && |listed| == MAX_SEGMENTS_PER_QUERY {
      if rows != [] { nextAfter := Some(rows[|rows| - 1].sequence); }
      FullPageHasRows(segments, cursor);
    }
    page := HistoryPage(rows, nextAfter);
    if |rows| < limit { assert listed[..n] == listed; }
    ListedFillsPage(segments, cursor, limit, page);
    if nextAfter.None? {
      assert listed[..n] == listed;
      assert listed == After(segments, cursor);
      PageRows(segments, cursor);
    }
  }

  lemma LogOfNone(segments: seq<Segment>)
    ensures segments[..0] == [] && LogOf(segments[..0]) == []
  {
  }

  lemma NextListed(listed: seq<Segment>, n: nat, after: int)
    requires n < |listed|
    ensures RowsAfter(LogOf(listed[..n + 1]), after)
            == RowsAfter(LogOf(listed[..n]), after) + RowsAfter(RowsOf(listed[n].path), after)
  {
    hide RowsAfter, LogOf;
    assert listed[..n + 1] == listed[..n] + [listed[n]];
    LogConcat(listed[..n], [listed[n]]);
    LogOfOne(listed[n]);
    RowsAfterConcat(LogOf(listed[..n]), RowsOf(listed[n].path), after);
  }

  lemma PageIsPrefix(segments: seq<Segment>, after: int)
    ensures Page(segments, after) <= After(segments, after)
    ensures |Page(segments, after)| < MAX_SEGMENTS_PER_QUERY ==> Page(segments, after) == After(segments, after)
  {
  }

  /** Rows read from the first segments of a page are first among the rows past the cursor. */
  lemma PrefixOfPage(segments: seq<Segment>, after: int, n: nat)
    requires Tiled(segments) && n <= |Page(segments, after)|
    ensures RowsAfter(LogOf(Page(segments, after)[..n]), after) <= RowsAfter(LogOf(segments), after)
  {
    hide Tiled, LogOf, RowsAfter, After;
    var listed := After(segments, after);
    PageIsPrefix(segments, after);
    assert listed == Page(segments, after)[..n] + listed[n..];
    LogConcat(Page(segments, after)[..n], listed[n..]);
    RowsAfterConcat(LogOf(Page(segments, after)[..n]), LogOf(listed[n..]), after);
    PageRows(segments, after);
  }

  lemma FullPageHasRows(segments: seq<Segment>, after: int)
    requires Tiled(segments) && Page(segments, after) != []
    ensures RowsAfter(LogOf(Page(segments, after)), after) != []
  {
    hide LogOf, RowsAfter, After, Tiled;
    var listed := Page(segments, after);
    PageIsPrefix(segments, after);
    var s := listed[0];
    assert s in After(segments, after) && after < s.last;
    var i :| 0 <= i < |segments| && segments[i] == s;
    TiledDescribes(segments, i);
    assert listed == [s] + listed[1..];
    LogConcat([s], listed[1..]);
    LogOfOne(s);
    AfterMembers(LogOf(listed), after);
    var last := RowsOf(s.path)[|RowsOf(s.path)| - 1];
    assert last in LogOf(listed) && last.sequence == s.last;
  }

  // ------------------------------------------------------ following next_after

  ghost function Collected(pages: seq<HistoryPage>): seq<Row> {
    if pages == [] then [] else Collected(pages[..|pages| - 1]) + pages[|pages| - 1].rows
  }

  function CursorBefore(pages: seq<HistoryPage>, start: Option<nat>, i: nat): int
    requires i <= |pages|
  {
    if i == 0 then CursorOf(start) else CursorOf(pages[i - 1].nextAfter)
  }

  /**
    A client follows `nextAfter` from a start cursor.  Between two requests the run may be
    re-segmented in any way and may grow, but what was stored stays stored in order.
   */
  ghost predicate Follows(views: seq<seq<Segment>>, pages: seq<HistoryPage>, start: Option<nat>, limit: nat) {
    && |views| == |pages| && limit > 0
    && (forall i :: 0 <= i < |views| ==> Tiled(views[i]))
    && (forall i :: 0 < i < |views| ==> LogOf(views[i - 1]) <= LogOf(views[i]))
    && (forall i :: 0 <= i < |pages| ==> Answers(views[i], CursorBefore(pages, start, i), limit, pages[i]))
    && (forall i :: 0 <= i < |pages| - 1 ==> pages[i].nextAfter.Some?)
  }

  /** What was collected plus what is still past the cursor is what was asked for. */
  ghost predicate Progress(collected: seq<Row>, log: seq<Row>, start: int, cursor: int) {
    && start <= cursor && collected + RowsAfter(log, cursor) == RowsAfter(log, start)
    && (start < cursor ==> exists r :: r in log && r.sequence == cursor)
  }

  /** After every answer the client has made progress, or has everything. */
  lemma {:induction false} CollectedSoFar(views: seq<seq<Segment>>, pages: seq<HistoryPage>, start: Option<nat>,
                                          limit: nat, n: nat)
    requires Follows(views, pages, start, limit) && 0 < n <= |pages|
    ensures pages[n - 1].nextAfter.Some? ==>
              && Progress(Collected(pages[..n]), LogOf(views[n - 1]), CursorOf(start), pages[n - 1].nextAfter.value)
              && CursorOf(start) < pages[n - 1].nextAfter.value
    ensures pages[n - 1].nextAfter.None? ==> Collected(pages[..n]) == RowsAfter(LogOf(views[n - 1]), CursorOf(start))
    decreases n
  {
    hide *;
    var i := n - 1;
    FollowsAt(views, pages, start, limit, i);
    var cursor, log := CursorBefore(pages, start, i), LogOf(views[i]);
    CollectedNext(pages, i);
    LogIsAscending(views[i]);
    if i == 0 {
      NothingCollected(pages, start, log);
    } else {
      PreviousCursor(pages, start, i);
      CollectedSoFar(views, pages, start, limit, i);
      GrowthKeepsRest(LogOf(views[i - 1]), log, CursorOf(start), cursor, Collected(pages[..i]));
    }
    AnswerAdvances(views[i], CursorOf(start), cursor, limit, pages[i], Collected(pages[..i]));
  }

  lemma FollowsAt(views: seq<seq<Segment>>, pages: seq<HistoryPage>, start: Option<nat>, limit: nat, i: nat)
    requires Follows(views, pages, start, limit) && i < |pages|
    ensures |views| == |pages| && Tiled(views[i]) && Answers(views[i], CursorBefore(pages, start, i), limit, pages[i])
    ensures i > 0 ==> LogOf(views[i - 1]) <= LogOf(views[i]) && pages[i - 1].nextAfter.Some?
  {
    hide Tiled, LogOf, Answers;
  }

  lemma NothingCollected(pages: seq<HistoryPage>, start: Option<nat>, log: seq<Row>)
    ensures Progress(Collected(pages[..0]), log, CursorOf(start), CursorBefore(pages, start, 0))
  {
    hide RowsAfter;
    assert [] + RowsAfter(log, CursorOf(start)) == RowsAfter(log, CursorOf(start));
  }

  lemma PreviousCursor(pages: seq<HistoryPage>, start: Option<nat>, i: nat)
    requires 0 < i <= |pages| && pages[i - 1].nextAfter.Some?
    ensures CursorBefore(pages, start, i) == pages[i - 1].nextAfter.value
  {
  }

  lemma AnswerAdvances(segments: seq<Segment>, start: int, cursor: int, limit: nat, page: HistoryPage,
                       collected: seq<Row>)
    requires Answers(segments, cursor, limit, page) && Ascending(LogOf(segments))
    requires Progress(collected, LogOf(segments), start, cursor)
    ensures page.nextAfter.Some? ==>
              && Progress(collected + page.rows, LogOf(segments), start, page.nextAfter.value)
              && start < page.nextAfter.value
    ensures page.nextAfter.None? ==> collected + page.rows == RowsAfter(LogOf(segments), start)
  {
    hide *;
    var log := LogOf(segments);
    AnswerParts(segments, cursor, limit, page);
    ProgressParts(collected, log, start, cursor);
    if page.nextAfter.Some? {
      var n := |page.rows|;
      RestAfter(log, cursor, n);
      AfterMembers(log, cursor);
      assert page.rows[n - 1] in RowsAfter(log, cursor);
      var rest := RowsAfter(log, page.nextAfter.value);
      assert RowsAfter(log, cursor) == page.rows + rest;
      Regroup(collected, page.rows, rest);
      ProgressMade(collected + page.rows, log, start, page.nextAfter.value, page.rows[n - 1]);
    }
  }

  lemma AnswerParts(segments: seq<Segment>, after: int, limit: nat, page: HistoryPage)
    requires Answers(segments, after, limit, page)
    ensures page.nextAfter.None? ==> page.rows == RowsAfter(LogOf(segments), after)
    ensures page.nextAfter.Some? ==>
              && 0 < |page.rows| <= |RowsAfter(LogOf(segments), after)|
              && page.rows == RowsAfter(LogOf(segments), after)[..|page.rows|]
              && page.nextAfter.value == page.rows[|page.rows| - 1].sequence
  {
    hide LogOf, RowsAfter;
  }

  lemma ProgressParts(collected: seq<Row>, log: seq<Row>, start: int, cursor: int)
    requires Progress(collected, log, start, cursor)
    ensures start <= cursor && collected + RowsAfter(log, cursor) == RowsAfter(log, start)
  {
  }

  lemma ProgressMade(collected: seq<Row>, log: seq<Row>, start: int, cursor: int, last: Row)
    requires start <= cursor && collected + RowsAfter(log, cursor) == RowsAfter(log, start)
    requires last in log && last.sequence == cursor
    ensures Progress(collected, log, start, cursor)
  {
  }

  lemma CollectedNext(pages: seq<HistoryPage>, i: nat)
    requires i < |pages|
    ensures Collected(pages[..i + 1]) == Collected(pages[..i]) + pages[i].rows
  {
    assert pages[..i + 1][..i] == pages[..i];
  }

  lemma Regroup(a: seq<Row>, b: seq<Row>, c: seq<Row>)
    ensures a + (b + c) == a + b + c
  {
  }

  /** Rows stored later lie past every cursor the client has been given. */
  lemma GrowthKeepsRest(log: seq<Row>, more: seq<Row>, start: int, cursor: int, collected: seq<Row>)
    requires log <= more && Ascending(more) && start < cursor && Progress(collected, log, start, cursor)
    ensures Progress(collected, more, start, cursor)
  {
    hide RowsAfter;
    var extra := more[|log|..];
    assert more == log + extra;
    var k :| 0 <= k < |log| && log[k].sequence == cursor;
    assert more[k] == log[k];
    forall i | 0 <= i < |extra|
      ensures cursor < extra[i].sequence
    {
      assert extra[i] == more[|log| + i];
    }
    RowsAfterConcat(log, extra, cursor);
    RowsAfterConcat(log, extra, start);
    AllAfter(extra, cursor);
    AllAfter(extra, start);
    assert collected + (RowsAfter(log, cursor) + extra) == (collected + RowsAfter(log, cursor)) + extra;
  }

  /**
    Following `nextAfter` until it is absent returns every row past the start cursor exactly
    once and in order, for any limit and any segmentation, whatever compaction did meanwhile.
   */
  lemma FollowingReadsEverything(views: seq<seq<Segment>>, pages: seq<HistoryPage>, start: Option<nat>, limit: nat)
    requires Follows(views, pages, start, limit) && pages != [] && pages[|pages| - 1].nextAfter.None?
    ensures Collected(pages) == RowsAfter(LogOf(views[|views| - 1]), CursorOf(start))
  {
    hide *;
    FollowsAt(views, pages, start, limit, 0);
    CollectedSoFar(views, pages, start, limit, |pages|);
    assert pages[..|pages|] == pages;
  }

  /** Every page but the last carries a row, so on a log that stays put the client finishes. */
  lemma {:induction false} FollowingEnds(views: seq<seq<Segment>>, pages: seq<HistoryPage>, start: Option<nat>,
                                         limit: nat, n: nat)
    requires Follows(views, pages, start, limit) && n <= |pages|
    requires forall i :: 0 <= i < n ==> pages[i].nextAfter.Some?
    ensures n <= |Collected(pages[..n])|
    ensures n > 0 ==> n <= |RowsAfter(LogOf(views[n - 1]), CursorOf(start))|
  {
    if n > 0 {
      hide RowsAfter, LogOf;
      FollowingEnds(views, pages, start, limit, n - 1);
      CollectedNext(pages, n - 1);
      CollectedSoFar(views, pages, start, limit, n);
      assert Answers(views[n - 1], CursorBefore(pages, start, n - 1), limit, pages[n - 1]);
    }
  }

  // ------------------------------------------------------------- page scans

  /** The catalog as each page is listed: it only gains segments at its end, as under a snapshot. */
  ghost predicate OnlyAppended(view: nat -> seq<Segment>) {
    (forall i :: Tiled(view(i))) && forall i, j :: 0 <= i <= j ==> view(i) <= view(j)
  }

  /** The listing past a cursor starts at the first segment that reaches beyond it. */
  lemma {:induction false} AfterAt(segments: seq<Segment>, after: int, k: nat)
    requires Tiled(segments) && k <= |segments|
    requires k > 0 ==> segments[k - 1].last <= after
    requires k < |segments| ==> after < segments[k].last
    ensures After(segments, after) == segments[k..]
    decreases k
  {
    hide Describes;
    if k == 0 {
      AfterEverything(segments, after);
      assert segments[0..] == segments;
    } else {
      if k > 1 { FirstsIncrease(segments, 0, k - 1); }
      TiledSlice(segments, 1, |segments|);
      assert segments[1..] == segments[1..|segments|];
      AfterAt(segments[1..], after, k - 1);
      assert segments[1..][k - 1..] == segments[k..];
    }
  }

  /** `k` is the first segment that reaches past the cursor. */
  ghost predicate FirstUnread(segments: seq<Segment>, after: int, k: nat) {
    k < |segments| && after < segments[k].last && (k > 0 ==> segments[k - 1].last <= after)
  }

  /**
    One iteration: having visited `m` segments from `k` on, the page holds the next `r` of
    them, is short only at the end of the catalog, and moves the cursor forward.
   */
  lemma NextPage(now: seq<Segment>, after: int, k: nat, m: nat, cursor: int) returns (r: nat)
    requires Tiled(now) && FirstUnread(now, after, k) && k + m <= |now|
    requires cursor == if m == 0 then after else now[k + m - 1].last
    ensures k + m + r <= |now| && Page(now, cursor) == now[k + m..k + m + r]
    ensures r == 0 || r != MAX_SEGMENTS_PER_QUERY ==> k + m + r == |now|
    ensures r > 0 ==> cursor < now[k + m + r - 1].last
  {
    hide *;
    Unread(now, after, k);
    var j := k + m;
    if m > 0 && j < |now| { FirstsIncrease(now, j - 1, j); }
    AfterAt(now, cursor, j);
    PageAt(now, cursor, j);
    r := |Page(now, cursor)|;
    if r > 1 { FirstsIncrease(now, j, j + r - 1); }
  }

  lemma Unread(segments: seq<Segment>, after: int, k: nat)
    requires FirstUnread(segments, after, k)
    ensures k < |segments| && after < segments[k].last && (k > 0 ==> segments[k - 1].last <= after)
  {
  }

  lemma IsFirstUnread(segments: seq<Segment>, after: int, k: nat)
    requires k < |segments| && after < segments[k].last && (k > 0 ==> segments[k - 1].last <= after)
    ensures FirstUnread(segments, after, k)
  {
  }

  lemma NoneVisited(now: seq<Segment>, k: nat)
    requires k <= |now|
    ensures Visited(now, k, [])
  {
  }

  lemma VisitedFits(now: seq<Segment>, k: nat, visited: seq<Segment>)
    requires Visited(now, k, visited)
    ensures k + |visited| <= |now| && visited == now[k..k + |visited|]
  {
  }

  lemma PageAt(now: seq<Segment>, cursor: int, j: nat)
    requires j <= |now| && After(now, cursor) == now[j..]
    ensures var r := |Page(now, cursor)|;
            && j + r <= |now| && Page(now, cursor) == now[j..j + r]
            && (r == 0 || r != MAX_SEGMENTS_PER_QUERY ==> j + r == |now|)
  {
    hide After;
    PageIsPrefix(now, cursor);
  }

  /** The visited segments are the consecutive ones from `k` on. */
  ghost predicate Visited(now: seq<Segment>, k: nat, visited: seq<Segment>) {
    k + |visited| <= |now| && visited == now[k..k + |visited|]
  }

  /** A segment that reaches the watermark is the watermark segment or a later one. */
  lemma ReachesWatermark(initial: seq<Segment>, now: seq<Segment>, i: nat)
    requires Tiled(now) && initial <= now && initial != [] && i < |now|
    ensures now[i].last >= initial[|initial| - 1].last <==> |initial| <= i + 1
  {
    hide Tiled;
    assert initial[|initial| - 1] == now[|initial| - 1];
    if i + 1 < |initial| { FirstsIncrease(now, i, |initial| - 1); }
    if i + 1 > |initial| { FirstsIncrease(now, |initial| - 1, i); }
  }

  lemma ViewsGrow(view: nat -> seq<Segment>, i: nat, j: nat)
    requires OnlyAppended(view) && i <= j
    ensures Tiled(view(i)) && Tiled(view(j)) && view(i) <= view(j)
  {
    hide Tiled;
  }

  lemma StaysUnread(initial: seq<Segment>, now: seq<Segment>, after: int, k: nat)
    requires initial <= now && FirstUnread(initial, after, k)
    ensures FirstUnread(now, after, k)
  {
  }

  /**
    Lists page after page until the watermark is reached.  The segments visited are
    consecutive ones from the first unread one on, each exactly once: all that were there at
    the start, and possibly some appended since.  The cursor always advances.
   */
  method ScanPages(view: nat -> seq<Segment>, after: Option<nat>, sourceLast: nat)
    returns (visited: seq<Segment>, stuck: bool, ghost k: nat, ghost n: nat)
    requires OnlyAppended(view) && view(0) != [] && view(0)[|view(0)| - 1].last == sourceLast
    requires CursorOf(after) < sourceLast
    ensures !stuck
    ensures FirstUnread(view(0), CursorOf(after), k)
    ensures Visited(view(n), k, visited)
    ensures |view(0)| <= k + |visited|
  {
    hide *;
    visited, stuck, n := [], false, 0;
    var cursor := after;
    var page: nat := 0;
    var finished := false;
    ViewsGrow(view, 0, 0);
    k := AfterIsSuffix(view(0), CursorOf(after));
    IsFirstUnread(view(0), CursorOf(after), k);
    NoneVisited(view(0), k);
    while !finished
      invariant !stuck && n <= page && Visited(view(n), k, visited)
      invariant finished ==> |view(0)| <= k + |visited|
      invariant !finished ==> n == page && CursorOf(cursor) < sourceLast
      invariant !finished ==> CursorOf(cursor) == if visited == [] then CursorOf(after) else visited[|visited| - 1].last
      decreases !finished, sourceLast - CursorOf(cursor)
    {
      ViewsGrow(view, 0, page);
      ViewsGrow(view, page, page + 1);
      visited, cursor, finished, stuck := ScanPage(view(0), view(page), after, sourceLast, k, visited, cursor);
      n := page;
      if !finished {
        VisitedLater(view(page), view(page + 1), k, visited);
        page, n := page + 1, page + 1;
      }
    }
  }

  /** One round of the page loop. */
  method ScanPage(ghost initial: seq<Segment>, now: seq<Segment>, ghost after: Option<nat>, sourceLast: nat,
                  ghost k: nat, visited: seq<Segment>, cursor: Option<nat>)
    returns (more: seq<Segment>, next: Option<nat>, finished: bool, stuck: bool)
    requires Tiled(now) && initial <= now && FirstUnread(initial, CursorOf(after), k) && Visited(now, k, visited)
    requires initial != [] && initial[|initial| - 1].last == sourceLast
    requires CursorOf(cursor) == if visited == [] then CursorOf(after) else visited[|visited| - 1].last
    ensures !stuck && Visited(now, k, more) && more == visited + Page(now, CursorOf(cursor))
    ensures finished ==> |initial| <= k + |more|
    ensures !finished ==>
              more != [] && CursorOf(next) == more[|more| - 1].last && CursorOf(cursor) < CursorOf(next) < sourceLast
  {
    hide Tiled, FirstUnread, Visited, Page;
    more, next, finished, stuck := visited, cursor, true, false;
    ScanStep(initial, now, CursorOf(after), k, visited, CursorOf(cursor));
    var records := Page(now, CursorOf(cursor));
    more := visited + records;
    if records == [] { return; }
    var pageLast := records[|records| - 1].last;
    if pageLast >= sourceLast || |records| != MAX_SEGMENTS_PER_QUERY { return; }
    if cursor == Some(pageLast) {
      stuck := true;
      return;
    }
    next, finished := Some(pageLast), false;
  }

  lemma VisitedNext(now: seq<Segment>, k: nat, visited: seq<Segment>, records: seq<Segment>)
    requires Visited(now, k, visited) && k + |visited| + |records| <= |now|
    requires records == now[k + |visited|..k + |visited| + |records|]
    ensures Visited(now, k, visited + records)
  {
  }

  lemma VisitedLater(now: seq<Segment>, later: seq<Segment>, k: nat, visited: seq<Segment>)
    requires Visited(now, k, visited) && now <= later
    ensures Visited(later, k, visited)
  {
  }

  lemma VisitedLast(now: seq<Segment>, k: nat, visited: seq<Segment>)
    requires Visited(now, k, visited) && visited != []
    ensures k + |visited| <= |now| && visited[|visited| - 1] == now[k + |visited| - 1]
  {
  }

  /** What one iteration establishes. */
  lemma ScanStep(initial: seq<Segment>, now: seq<Segment>, after: int, k: nat, visited: seq<Segment>, cursor: int)
    requires Tiled(now) && initial <= now && initial != [] && FirstUnread(initial, after, k) && Visited(now, k, visited)
    requires cursor == if visited == [] then after else visited[|visited| - 1].last
    ensures var records := Page(now, cursor);
            && Visited(now, k, visited + records)
            && (records == [] || |records| != MAX_SEGMENTS_PER_QUERY ==> |initial| <= k + |visited| + |records|)
            && (records != [] ==>
                  && cursor < records[|records| - 1].last
                  && (records[|records| - 1].last >= initial[|initial| - 1].last ==>
                        |initial| <= k + |visited| + |records|))
  {
    hide *;
    var m := |visited|;
    if m > 0 { VisitedLast(now, k, visited); }
    VisitedFits(now, k, visited);
    StaysUnread(initial, now, after, k);
    var r := NextPage(now, after, k, m, cursor);
    var records := Page(now, cursor);
    assert |records| == r;
    VisitedNext(now, k, visited, records);
    if r > 0 {
      ReachesWatermark(initial, now, k + m + r - 1);
      assert records[r - 1] == now[k + m + r - 1];
    }
  }

  /** Read in terms of rows: all rows past the cursor that were stored, then only rows past the watermark. */
  lemma ScanReadsTheLog(initial: seq<Segment>, now: seq<Segment>, after: int, k: nat, m: nat) returns (extra: seq<Row>)
    requires Tiled(now) && initial <= now && FirstUnread(initial, after, k) && |initial| <= k + m <= |now|
    ensures LogOf(now[k..k + m]) == LogOf(initial[k..]) + extra
    ensures RowsAfter(LogOf(initial[k..]), after) == RowsAfter(LogOf(initial), after)
    ensures forall i :: 0 <= i < |extra| ==> initial[|initial| - 1].last < extra[i].sequence
  {
    hide *;
    var n := |initial|;
    Unread(initial, after, k);
    ScanSplits(initial, now, k, m);
    LogConcat(initial[k..], now[n..k + m]);
    extra := LogOf(now[n..k + m]);
    assert now[n..k + m] == now[n..n + (k + m - n)] && now[n - 1] == initial[n - 1];
    LaterRows(now, n, k + m - n);
    UnreadRows(initial, now, after, k);
  }

  lemma ScanSplits(initial: seq<Segment>, now: seq<Segment>, k: nat, m: nat)
    requires initial <= now && k <= |initial| <= k + m <= |now|
    ensures now[k..k + m] == initial[k..] + now[|initial|..k + m]
  {
  }

  lemma UnreadRows(initial: seq<Segment>, now: seq<Segment>, after: int, k: nat)
    requires Tiled(now) && initial <= now && FirstUnread(initial, after, k)
    ensures k <= |initial| && RowsAfter(LogOf(initial[k..]), after) == RowsAfter(LogOf(initial), after)
  {
    hide *;
    Unread(initial, after, k);
    TiledPrefix(initial, now);
    AfterAt(initial, after, k);
    PageRows(initial, after);
  }

  lemma LaterRows(now: seq<Segment>, n: nat, m: nat)
    requires Tiled(now) && 0 < n && n + m <= |now|
    ensures var extra := LogOf(now[n..n + m]);
            forall i :: 0 <= i < |extra| ==> now[n - 1].last < extra[i].sequence
  {
    hide LogOf, Describes;
    TiledSlice(now, n, n + m);
    if m == 0 {
      assert now[n..n] == [];
      LogOfNothing();
    } else {
      TiledLogIsConsecutive(now[n..n + m]);
      FirstsIncrease(now, n - 1, n);
    }
  }
}

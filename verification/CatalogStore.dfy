/** The catalog's operations on one run, each a transaction over its tables. */
module CatalogStore {
  import opened Wrappers
  import opened MetricLog
  import opened SegmentCatalog
  import opened CompactionCandidates

  const USIZE_MAX: nat := 0xFFFF_FFFF_FFFF_FFFF
  const I64_MAX: nat := 0x7FFF_FFFF_FFFF_FFFF

  /** `WHERE last_sequence > after`, in listing order. */
  function After(segments: seq<Segment>, after: int): (r: seq<Segment>)
    ensures |r| <= |segments|
    ensures forall i :: 0 <= i < |r| ==> r[i] in segments && after < r[i].last
    ensures forall s :: s in segments && after < s.last ==> s in r
  {
    if segments == [] then []
    else if after < segments[0].last then [segments[0]] + After(segments[1..], after)
    else After(segments[1..], after)
  }

  /** One page of the listing. */
  function Page(segments: seq<Segment>, after: int): seq<Segment> {
    var listed := After(segments, after);
    if |listed| <= MAX_SEGMENTS_PER_QUERY then listed else listed[..MAX_SEGMENTS_PER_QUERY]
  }

  function CursorOf(after: Option<nat>): int {
    if after.Some? then after.value else -1
  }

  /** `metric_extent`: from the first unread sequence to the newest stored one. */
  function ExtentAfter(segments: seq<Segment>, after: Option<nat>): Option<Extent> {
    var listed := After(segments, CursorOf(after));
    if listed == [] then None
    else
      var stored := MinFirst(listed);
      var first := if after.Some? then Max(after.value + 1, stored) else stored;
      if first <= MaxLast(listed) then Some(Extent(first, MaxLast(listed))) else None
  }

  function MinFirst(segments: seq<Segment>): nat
    requires segments != []
  {
    if |segments| == 1 then segments[0].first else Min(segments[0].first, MinFirst(segments[1..]))
  }

  /** The candidate starts at the first qualifying window and cannot be extended. */
  ghost predicate IsCandidate(segments: seq<Segment>, k: nat, c: seq<Segment>, target: nat, limit: nat) {
    && Qualifies(segments, k, target) && (forall j: nat :: j < k ==> !Qualifies(segments, j, target))
    && MIN_COMPACTION_INPUT_SEGMENTS <= |c| <= limit && k + |c| <= |segments| && c == segments[k..k + |c|]
    && Compactable(c, target)
    && (|c| == limit || k + |c| == |segments| || !Compactable(segments[k..k + |c| + 1], target))
  }

  // ------------------------------------------------------------------ laws

  lemma {:induction false} StartingAtIs(segments: seq<Segment>, k: nat)
    requires Tiled(segments) && k < |segments|
    ensures StartingAt(segments, segments[k].first) == segments[k..]
    decreases k
  {
    hide Describes;
    if k > 0 {
      FirstsIncrease(segments, 0, k);
      TiledSlice(segments, 1, |segments|);
      assert segments[1..] == segments[1..|segments|];
      StartingAtIs(segments[1..], k - 1);
      assert segments[1..][k - 1] == segments[k] && segments[1..][k - 1..] == segments[k..];
    }
  }

  /** The greedy test accepts a next segment exactly when the extended input stays compactable. */
  lemma ExtendsCompactable(c: seq<Segment>, s: Segment, target: nat, least: nat, greatest: nat)
    requires Compactable(c, target)
    requires forall i :: 0 <= i < |c| ==> least <= c[i].rowCount <= greatest
    requires c != [] ==> exists i :: 0 <= i < |c| && c[i].rowCount == least
    requires c != [] ==> exists i :: 0 <= i < |c| && c[i].rowCount == greatest
    ensures var low := if c == [] then s.rowCount else Min(least, s.rowCount);
            var high := if c == [] then s.rowCount else Max(greatest, s.rowCount);
            Compactable(c + [s], target) <==>
              && (c != [] ==> c[|c| - 1].signature == s.signature && c[|c| - 1].last + 1 == s.first)
              && s.rowCount < target && high <= low * MAX_COMPACTION_SIZE_RATIO && TotalRows(c) + s.rowCount <= target
  {
    hide TotalRows, Adjacent, Comparable;
    TotalRowsSnoc(c, s);
    AdjacentSnoc(c, s);
    ComparableSnoc(c, s, least, greatest);
    assert forall i :: 0 <= i < |c| ==> (c + [s])[i] == c[i];
    assert (c + [s])[|c|] == s;
  }

  lemma ComparableSnoc(c: seq<Segment>, s: Segment, least: nat, greatest: nat)
    requires Comparable(c) && forall i :: 0 <= i < |c| ==> least <= c[i].rowCount <= greatest
    requires c != [] ==> exists i :: 0 <= i < |c| && c[i].rowCount == least
    requires c != [] ==> exists i :: 0 <= i < |c| && c[i].rowCount == greatest
    ensures var low := if c == [] then s.rowCount else Min(least, s.rowCount);
            var high := if c == [] then s.rowCount else Max(greatest, s.rowCount);
            Comparable(c + [s]) <==> high <= low * MAX_COMPACTION_SIZE_RATIO
  {
    var e := c + [s];
    assert e[|c|] == s;
    if c != [] {
      var i :| 0 <= i < |c| && c[i].rowCount == least;
      var j :| 0 <= j < |c| && c[j].rowCount == greatest;
      assert e[i].rowCount == least && e[j].rowCount == greatest;
    }
  }

  lemma AdjacentSnoc(c: seq<Segment>, s: Segment)
    ensures Adjacent(c + [s]) <==>
              Adjacent(c) && (c != [] ==> s.signature == c[0].signature && s.first == c[|c| - 1].last + 1)
    ensures c != [] && Adjacent(c) ==> c[|c| - 1].signature == c[0].signature
  {
    var e := c + [s];
    assert forall i :: 0 <= i < |c| ==> e[i] == c[i];
    if Adjacent(e) {
      if c != [] { assert e[|c|].first == e[|c| - 1].last + 1; }
      forall i | 0 < i < |c|
        ensures c[i].signature == c[0].signature && c[i].first == c[i - 1].last + 1
      {
        assert e[i].signature == e[0].signature && e[i].first == e[i - 1].last + 1;
      }
    }
  }

  lemma {:induction false} CompactablePrefix(c: seq<Segment>, n: nat, target: nat)
    requires Compactable(c, target) && n <= |c|
    ensures Compactable(c[..n], target)
    decreases |c| - n
  {
    if n < |c| {
      hide Compactable;
      CompactablePrefix(c, n + 1, target);
      assert c[..n + 1] == c[..n] + [c[n]];
      CompactableInit(c[..n], c[n], target);
    } else {
      assert c[..n] == c;
    }
  }

  lemma CompactableInit(c: seq<Segment>, s: Segment, target: nat)
    requires Compactable(c + [s], target)
    ensures Compactable(c, target)
  {
    hide TotalRows, Adjacent;
    var d := c + [s];
    TotalRowsSnoc(c, s);
    AdjacentPrefix(d, |c|);
    assert d[..|c|] == c;
    assert forall i :: 0 <= i < |c| ==> c[i] == d[i];
  }

  /** On a tiled catalog the extent is the unread range of the log. */
  lemma ExtentOfTiled(segments: seq<Segment>, after: Option<nat>)
    requires Tiled(segments) && segments != []
    ensures var last := segments[|segments| - 1].last;
            ExtentAfter(segments, after)
            == (if after.Some? && last <= after.value then None
                else
                  var first := segments[0].first;
                  Some(Extent(if after.Some? then Max(after.value + 1, first) else first, last)))
  {
    hide Tiled, Describes, After, MaxLast, MinFirst;
    var last := segments[|segments| - 1].last;
    if CursorOf(after) < last {
      var k := AfterIsSuffix(segments, CursorOf(after));
      SuffixExtent(segments, k);
    } else {
      AfterNothing(segments, CursorOf(after));
    }
  }

  lemma SuffixExtent(segments: seq<Segment>, k: nat)
    requires Tiled(segments) && k < |segments|
    ensures MinFirst(segments[k..]) == segments[k].first
    ensures MaxLast(segments[k..]) == segments[|segments| - 1].last
    ensures segments[k].first <= segments[|segments| - 1].last
    ensures k > 0 ==> segments[k].first == segments[k - 1].last + 1 && segments[0].first < segments[k].first
  {
    hide MaxLast, MinFirst;
    var listed := segments[k..];
    TiledSlice(segments, k, |segments|);
    assert listed == segments[k..|segments|];
    MaxLastOfTiled(listed);
    MinFirstOfTiled(listed);
    if k > 0 { FirstsIncrease(segments, 0, k); }
    if k < |segments| - 1 { FirstsIncrease(segments, k, |segments| - 1); }
    assert Describes(segments[k]);
  }

  /** Reading past a cursor skips whole segments and nothing else. */
  lemma {:induction false} AfterIsSuffix(segments: seq<Segment>, after: int) returns (k: nat)
    requires Tiled(segments) && segments != [] && after < segments[|segments| - 1].last
    ensures k < |segments| && After(segments, after) == segments[k..]
    ensures after < segments[k].last && (k > 0 ==> segments[k - 1].last <= after)
    decreases |segments|
  {
    hide Describes;
    if after < segments[0].last {
      k := 0;
      AfterEverything(segments, after);
      assert segments[0..] == segments;
    } else {
      TiledSlice(segments, 1, |segments|);
      assert segments[1..] == segments[1..|segments|];
      var rest := segments[1..];
      assert rest[|rest| - 1] == segments[|segments| - 1];
      var k' := AfterIsSuffix(rest, after);
      k := k' + 1;
      assert rest[k'..] == segments[k..] && rest[k'] == segments[k];
      if k' > 0 { assert rest[k' - 1] == segments[k - 1]; }
    }
  }

  lemma {:induction false} AfterEverything(segments: seq<Segment>, after: int)
    requires Tiled(segments) && (segments != [] ==> after < segments[0].last)
    ensures After(segments, after) == segments
    decreases |segments|
  {
    hide Describes;
    if |segments| > 1 {
      FirstsIncrease(segments, 0, 1);
      TiledSlice(segments, 1, |segments|);
      assert segments[1..] == segments[1..|segments|];
      AfterEverything(segments[1..], after);
    }
  }

  lemma {:induction false} AfterNothing(segments: seq<Segment>, after: int)
    requires Tiled(segments) && (segments != [] ==> segments[|segments| - 1].last <= after)
    ensures After(segments, after) == []
    decreases |segments|
  {
    hide Describes;
    if segments != [] {
      if |segments| > 1 {
        FirstsIncrease(segments, 0, |segments| - 1);
        TiledSlice(segments, 1, |segments|);
        assert segments[1..] == segments[1..|segments|];
      }
      AfterNothing(segments[1..], after);
    }
  }

  lemma {:induction false} MinFirstOfTiled(segments: seq<Segment>)
    requires Tiled(segments) && segments != []
    ensures MinFirst(segments) == segments[0].first
    decreases |segments|
  {
    hide Describes;
    if |segments| > 1 {
      FirstsIncrease(segments, 0, 1);
      TiledSlice(segments, 1, |segments|);
      assert segments[1..] == segments[1..|segments|];
      MinFirstOfTiled(segments[1..]);
    }
  }

  // ------------------------------------------------------------ operations

  method ValidateCompactionReplacement(sources: seq<Segment>, replacement: Segment) returns (valid: bool)
    ensures valid == ValidReplacement(sources, replacement)
  {
    if |sources| < 2 { return false; }
    hide TotalRows, Adjacent;
    EmptyIsAdjacent(sources);
    var expected := sources[0].first;
    var rows := 0;
    var n := 0;
    while n < |sources|
      invariant n <= |sources|
      invariant Adjacent(sources[..n])
      invariant rows == TotalRows(sources[..n])
      invariant expected == if n == 0 then sources[0].first else sources[n - 1].last + 1
    {
      var source := sources[n];
      assert sources[..n + 1] == sources[..n] + [source];
      AdjacentNext(sources, n);
      TotalRowsSnoc(sources[..n], source);
      if source.signature != sources[0].signature || source.first != expected {
        AdjacentPrefix(sources, n + 1);
        return false;
      }
      expected := source.last + 1;
      rows := rows + source.rowCount;
      n := n + 1;
    }
    assert sources[..n] == sources;
    return replacement.signature == sources[0].signature && replacement.first == sources[0].first
        && replacement.last == sources[|sources| - 1].last && replacement.rowCount == rows;
  }

  lemma EmptyIsAdjacent(sources: seq<Segment>)
    ensures sources[..0] == [] && Adjacent([]) && TotalRows([]) == 0
  {
  }

  lemma AdjacentNext(sources: seq<Segment>, n: nat)
    requires n < |sources| && Adjacent(sources[..n])
    ensures Adjacent(sources[..n] + [sources[n]]) <==>
              sources[n].signature == sources[0].signature && (n > 0 ==> sources[n].first == sources[n - 1].last + 1)
  {
    if n > 0 { AdjacentSnoc(sources[..n], sources[n]); }
  }

  lemma AdjacentPrefix(sources: seq<Segment>, n: nat)
    requires n <= |sources|
    ensures Adjacent(sources) ==> Adjacent(sources[..n])
  {
    forall i | 0 < i < n && Adjacent(sources)
      ensures sources[..n][i].signature == sources[..n][0].signature
              && sources[..n][i].first == sources[..n][i - 1].last + 1
    {
      assert sources[i].signature == sources[0].signature;
    }
  }

  lemma PathSetSnoc(sources: seq<Segment>, n: nat)
    requires n < |sources|
    ensures PathSet(Paths(sources[..n + 1])) == PathSet(Paths(sources[..n])) + {sources[n].path}
    ensures forall kept :: DeleteAll(kept, sources[n..]) == DeleteAll(Delete(kept, sources[n].path), sources[n + 1..])
  {
    assert Paths(sources[..n + 1]) == Paths(sources[..n]) + [sources[n].path];
    assert sources[n..][0] == sources[n] && sources[n..][1..] == sources[n + 1..];
  }

  /** The second loop of a replacement: each source is retired and its row deleted. */
  method DeleteSources(segments: seq<Segment>, retired: set<Path>, sources: seq<Segment>)
    returns (kept: seq<Segment>, gone: set<Path>)
    ensures kept == DeleteAll(segments, sources)
    ensures gone == retired + PathSet(Paths(sources))
  {
    kept, gone := segments, retired;
    var n := 0;
    assert sources[0..] == sources;
    while n < |sources|
      invariant n <= |sources|
      invariant DeleteAll(kept, sources[n..]) == DeleteAll(segments, sources)
      invariant gone == retired + PathSet(Paths(sources[..n]))
    {
      PathSetSnoc(sources, n);
      gone := gone + {sources[n].path};
      kept := Delete(kept, sources[n].path);
      n := n + 1;
    }
    assert sources[..n] == sources;
  }

  /** Extends the input row by row until the next segment does not fit. */
  method GreedyCandidate(rows: seq<Segment>, target: nat) returns (chosen: seq<Segment>)
    requires forall i :: 0 <= i < |rows| ==> rows[i].rowCount <= I64_MAX
    ensures chosen <= rows && Compactable(chosen, target)
    ensures |chosen| < |rows| ==> !Compactable(rows[..|chosen| + 1], target)
  {
    hide TotalRows, Compactable;
    chosen := [];
    var total, minimum, maximum := 0, USIZE_MAX, 0;
    EmptyIsCompactable(target);
    var n := 0;
    while n < |rows|
      invariant n <= |rows| && chosen == rows[..n] && Compactable(chosen, target) && total == TotalRows(chosen)
      invariant n == 0 ==> minimum == USIZE_MAX && maximum == 0
      invariant forall i :: 0 <= i < n ==> minimum <= chosen[i].rowCount <= maximum
      invariant n > 0 ==> exists i :: 0 <= i < n && chosen[i].rowCount == minimum
      invariant n > 0 ==> exists i :: 0 <= i < n && chosen[i].rowCount == maximum
    {
      var segment := rows[n];
      var compatible := n == 0
          || (chosen[n - 1].signature == segment.signature && chosen[n - 1].last + 1 == segment.first);
      var nextTotal := total + segment.rowCount;
      var nextMinimum := Min(minimum, segment.rowCount);
      var nextMaximum := Max(maximum, segment.rowCount);
      var comparable := nextMinimum * MAX_COMPACTION_SIZE_RATIO <= USIZE_MAX
                        && nextMaximum <= nextMinimum * MAX_COMPACTION_SIZE_RATIO;
      ExtendsCompactable(chosen, segment, target, minimum, maximum);
      assert rows[..n + 1] == chosen + [segment];
      if !compatible || segment.rowCount >= target || !comparable || nextTotal > target { break; }
      TotalRowsSnoc(chosen, segment);
      chosen := chosen + [segment];
      total, minimum, maximum := nextTotal, nextMinimum, nextMaximum;
      assert chosen[n].rowCount == segment.rowCount;
      n := n + 1;
    }
  }

  lemma EmptyIsCompactable(target: nat)
    ensures Compactable([], target) && TotalRows([]) == 0
  {
  }

  /** A qualifying window guarantees that the extension reaches at least four segments. */
  lemma FirstFourFit(segments: seq<Segment>, k: nat, rows: seq<Segment>, target: nat, n: nat)
    requires Qualifies(segments, k, target) && rows <= segments[k..] && MIN_COMPACTION_INPUT_SEGMENTS <= |rows|
    requires n < |rows| ==> !Compactable(rows[..n + 1], target)
    requires n <= |rows|
    ensures MIN_COMPACTION_INPUT_SEGMENTS <= n
  {
    hide Compactable;
    if n < MIN_COMPACTION_INPUT_SEGMENTS {
      var w := segments[k..k + MIN_COMPACTION_INPUT_SEGMENTS];
      assert rows[..MIN_COMPACTION_INPUT_SEGMENTS] == w;
      assert rows[..n + 1] == w[..n + 1];
      CompactablePrefix(w, n + 1, target);
    }
  }

  lemma WindowFits(segments: seq<Segment>, k: nat, target: nat)
    requires Qualifies(segments, k, target)
    ensures k + MIN_COMPACTION_INPUT_SEGMENTS <= |segments|
  {
  }

  lemma CandidateFound(segments: seq<Segment>, k: nat, rows: seq<Segment>, c: seq<Segment>, target: nat, limit: nat)
    requires Qualifies(segments, k, target) && (forall j: nat :: j < k ==> !Qualifies(segments, j, target))
    requires k <= |segments| && rows == (if limit < |segments[k..]| then segments[k..][..limit] else segments[k..])
    requires MIN_COMPACTION_INPUT_SEGMENTS <= |c| && c <= rows && Compactable(c, target)
    requires |c| < |rows| ==> !Compactable(rows[..|c| + 1], target)
    ensures IsCandidate(segments, k, c, target, limit)
  {
    hide Compactable, Qualifies;
    assert c == segments[k..k + |c|];
    if |c| < |rows| { assert rows[..|c| + 1] == segments[k..k + |c| + 1]; }
  }

  class Catalog {
    var segments: seq<Segment>
    var batches: map<nat, seq<Row>>
    var retired: set<Path>
    var running: bool

    constructor ()
      ensures Contents() == Tables([], map[], {}, true)
    {
      segments, batches, retired, running := [], map[], {}, true;
    }

    function Contents(): Tables
      reads this
    {
      Tables(segments, batches, retired, running)
    }

    method QueryBatchStatus(batch: nat, rows: seq<Row>) returns (r: Result<BatchStatus, CatalogError>)
      ensures r.Ok? && r.value == Missing <==> batch !in batches
      ensures r.Ok? && r.value == Duplicate <==> batch in batches && batches[batch] == rows
      ensures r.Err? ==> r.error == BatchReused
    {
      if batch !in batches { return Ok(Missing); }
      if batches[batch] != rows { return Err(BatchReused); }
      return Ok(Duplicate);
    }

    method RegisterBatch(batch: nat, rows: seq<Row>, segment: Segment) returns (r: Result<Registration, CatalogError>)
      modifies this
      ensures (Contents(), r) == Registered(old(Contents()), batch, rows, segment)
      ensures batch in old(batches) <==> r == Ok(AlreadyAccepted) || r == Err(BatchReused)
      ensures batch in old(batches) ==> (r == Ok(AlreadyAccepted) <==> old(batches)[batch] == rows)
      ensures batch !in old(batches) ==> (r == Err(RunFinished) <==> !running)
      ensures r != Ok(Accepted) ==> Contents() == old(Contents())
      ensures r == Ok(Accepted) ==>
                && batches == old(batches)[batch := rows] && retired == old(retired) && running == old(running)
                && multiset(segments) == multiset(old(segments)) + multiset{segment}
                && forall s :: s in old(segments) ==> s.last < segment.first && s.path != segment.path
    {
      if batch in batches {
        if batches[batch] != rows { return Err(BatchReused); }
        return Ok(AlreadyAccepted);
      }
      if !running { return Err(RunFinished); }
      if segments != [] && segment.first != MaxLast(segments) + 1 { return Err(SequenceGap); }
      if HasPath(segments, segment.path) { return Err(NotUnique); }
      InsertAdds(segments, segment);
      MaxLastBounds(segments);
      segments := Insert(segments, segment);
      batches := batches[batch := rows];
      return Ok(Accepted);
    }

    method FinishRun()
      modifies this
      ensures Contents() == old(Contents()).(running := false)
    {
      running := false;
    }

    method ReplaceCompactedSegments(sources: seq<Segment>, replacement: Segment)
      returns (r: Result<seq<Path>, CatalogError>)
      modifies this
      ensures (Contents(), r) == Replaced(old(Contents()), sources, replacement)
      ensures r.Err? ==> Contents() == old(Contents())
      ensures r.Ok? ==>
                && r.value == Paths(sources) && (forall s :: s in sources ==> s in old(segments))
                && batches == old(batches) && running == old(running)
                && retired == old(retired) + (set p | p in Paths(sources))
    {
      hide ValidReplacement, DeleteAll, Delete, Insert, HasPath, Paths, PathSet;
      var valid := ValidateCompactionReplacement(sources, replacement);
      if !valid { return Err(InvalidReplacement); }
      var n := 0;
      while n < |sources|
        invariant n <= |sources| && forall i :: 0 <= i < n ==> sources[i] in segments
      {
        if sources[n] !in segments { return Err(SourceGone); }
        n := n + 1;
      }
      var kept, gone := DeleteSources(segments, retired, sources);
      if HasPath(kept, replacement.path) { return Err(NotUnique); }
      SetOfPaths(Paths(sources));
      segments, retired := Insert(kept, replacement), gone;
      return Ok(Paths(sources));
    }

    method MetricExtent(after: Option<nat>) returns (extent: Option<Extent>)
      requires Tiled(segments)
      ensures extent.None? <==> segments == [] || segments[|segments| - 1].last <= CursorOf(after)
      ensures extent.Some? ==>
                && extent.value.last == segments[|segments| - 1].last
                && extent.value.first == Max(CursorOf(after) + 1, segments[0].first)
    {
      extent := ExtentAfter(segments, after);
      if segments != [] { ExtentOfTiled(segments, after); }
    }

    method LastSegment() returns (r: Option<Segment>)
      requires Tiled(segments)
      ensures r == if segments == [] then None else Some(segments[|segments| - 1])
    {
      if segments == [] { return None; }
      var n, best := 1, segments[0];
      while n < |segments|
        invariant 1 <= n <= |segments| && best == segments[n - 1]
      {
        FirstsIncrease(segments, n - 1, n);
        if best.last < segments[n].last { best := segments[n]; }
        n := n + 1;
      }
      return Some(best);
    }

    method RetiredSegments(limit: nat) returns (paths: seq<Path>)
      ensures |paths| == Min(limit, |retired|)
      ensures forall i :: 0 <= i < |paths| ==> paths[i] in retired
      ensures forall i, j :: 0 <= i < j < |paths| ==> paths[i] != paths[j]
    {
      var left := retired;
      paths := [];
      while |paths| < limit && left != {}
        invariant left <= retired && |left| + |paths| == |retired| && |paths| <= limit
        invariant forall i :: 0 <= i < |paths| ==> paths[i] in retired && paths[i] !in left
        invariant forall i, j :: 0 <= i < j < |paths| ==> paths[i] != paths[j]
        decreases |left|
      {
        var p :| p in left;
        left := left - {p};
        paths := paths + [p];
      }
    }

    method AcknowledgeRetiredSegments(paths: seq<Path>)
      modifies this`retired
      ensures retired == old(retired) - PathSet(paths)
    {
      var n := 0;
      while n < |paths|
        invariant n <= |paths| && retired == old(retired) - PathSet(paths[..n])
      {
        assert PathSet(paths[..n + 1]) == PathSet(paths[..n]) + {paths[n]} by {
          assert paths[..n + 1] == paths[..n] + [paths[n]];
        }
        retired := retired - {paths[n]};
        n := n + 1;
      }
      assert paths[..n] == paths;
    }

    method NextCompactionCandidate(target: nat, limit: nat) returns (r: Result<Option<seq<Segment>>, CatalogError>)
      requires Tiled(segments) && forall i :: 0 <= i < |segments| ==> segments[i].rowCount <= I64_MAX
      ensures r.Err? <==> target == 0 || limit < MIN_COMPACTION_INPUT_SEGMENTS
      ensures r == Ok(None) ==> forall j: nat :: !Qualifies(segments, j, target)
      ensures r.Ok? && r.value.Some? ==> exists k: nat :: IsCandidate(segments, k, r.value.value, target, limit)
    {
      if target == 0 || limit < MIN_COMPACTION_INPUT_SEGMENTS { return Err(InvalidArguments); }
      hide *;
      var seed := Seed(Small(segments, target), target);
      ghost var k := SeedFindsFirstWindow(segments, target);
      if seed.None? { return Ok(None); }
      WindowFits(segments, k, target);
      var rows := StartingAt(segments, seed.value.first);
      StartingAtIs(segments, k);
      if limit < |rows| { rows := rows[..limit]; }
      var chosen := GreedyCandidate(rows, target);
      FirstFourFit(segments, k, rows, target, |chosen|);
      if |chosen| < MIN_COMPACTION_INPUT_SEGMENTS { return Ok(None); }
      CandidateFound(segments, k, rows, chosen, target, limit);
      return Ok(Some(chosen));
    }
  }
}

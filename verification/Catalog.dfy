/** The segment catalog of one run: registration, replacement, listing and candidate selection. */
module SegmentCatalog {
  import opened Wrappers
  import opened MetricLog

  const MAX_SEGMENTS_PER_QUERY: nat := 256
  const MIN_COMPACTION_INPUT_SEGMENTS: nat := 4
  const MAX_COMPACTION_SIZE_RATIO: nat := 2

  datatype CatalogError =
    | BatchReused
    | RunFinished
    | SequenceGap
    | SourceGone
    | InvalidReplacement
    | InvalidArguments
    | NotUnique

  datatype BatchStatus = Missing | Duplicate

  datatype Registration = Accepted | AlreadyAccepted

  /** The tables of the catalog as far as one run is concerned. */
  datatype Tables = Tables(
    segments: seq<Segment>,
    batches: map<nat, seq<Row>>,
    retired: set<Path>,
    running: bool)

  datatype Extent = Extent(first: nat, last: nat)

  // -------------------------------------------------------- specifications

  /** Inserting a row keeps the listing ordered by first sequence. */
  function Insert(segments: seq<Segment>, s: Segment): seq<Segment> {
    if segments == [] || s.first < segments[0].first then [s] + segments
    else [segments[0]] + Insert(segments[1..], s)
  }

  function Delete(segments: seq<Segment>, path: Path): seq<Segment> {
    if segments == [] then []
    else if segments[0].path == path then segments[1..]
    else [segments[0]] + Delete(segments[1..], path)
  }

  function DeleteAll(segments: seq<Segment>, sources: seq<Segment>): seq<Segment>
    decreases |sources|
  {
    if sources == [] then segments else DeleteAll(Delete(segments, sources[0].path), sources[1..])
  }

  function MaxLast(segments: seq<Segment>): nat
    requires segments != []
  {
    if |segments| == 1 then segments[0].last
    else Max(segments[0].last, MaxLast(segments[1..]))
  }

  lemma {:induction false} MaxLastBounds(segments: seq<Segment>)
    ensures forall s :: s in segments ==> s.last <= MaxLast(segments)
  {
    if |segments| > 1 { MaxLastBounds(segments[1..]); }
  }

  lemma {:induction false} InsertAdds(segments: seq<Segment>, s: Segment)
    ensures multiset(Insert(segments, s)) == multiset(segments) + multiset{s}
  {
    if segments != [] && !(s.first < segments[0].first) {
      InsertAdds(segments[1..], s);
      assert segments == [segments[0]] + segments[1..];
    }
  }

  predicate HasPath(segments: seq<Segment>, path: Path) {
    exists i :: 0 <= i < |segments| && segments[i].path == path
  }

  /** `register_batch` as one transaction. */
  function Registered(t: Tables, batch: nat, rows: seq<Row>, segment: Segment)
    : (Tables, Result<Registration, CatalogError>)
  {
    if batch in t.batches then
      (t, if t.batches[batch] == rows then Ok(AlreadyAccepted) else Err(BatchReused))
    else if !t.running then (t, Err(RunFinished))
    else if t.segments != [] && segment.first != MaxLast(t.segments) + 1 then (t, Err(SequenceGap))
    else if HasPath(t.segments, segment.path) then (t, Err(NotUnique))
    else (t.(segments := Insert(t.segments, segment), batches := t.batches[batch := rows]), Ok(Accepted))
  }

  function PathSet(paths: seq<Path>): set<Path> {
    set p | p in paths
  }

  lemma SetOfPaths(paths: seq<Path>)
    ensures PathSet(paths) == set p | p in paths
  {
  }

  predicate Adjacent(sources: seq<Segment>) {
    forall i :: 0 < i < |sources| ==>
      sources[i].signature == sources[0].signature && sources[i].first == sources[i - 1].last + 1
  }

  predicate ValidReplacement(sources: seq<Segment>, replacement: Segment) {
    && |sources| >= 2 && Adjacent(sources)
    && replacement.signature == sources[0].signature
    && replacement.first == sources[0].first
    && replacement.last == sources[|sources| - 1].last
    && replacement.rowCount == TotalRows(sources)
  }

  /** `replace_compacted_segments` as one transaction. */
  function Replaced(t: Tables, sources: seq<Segment>, replacement: Segment): (Tables, Result<seq<Path>, CatalogError>) {
    if !ValidReplacement(sources, replacement) then (t, Err(InvalidReplacement))
    else if exists i :: 0 <= i < |sources| && sources[i] !in t.segments then (t, Err(SourceGone))
    else if HasPath(DeleteAll(t.segments, sources), replacement.path) then (t, Err(NotUnique))
    else (t.(segments := Insert(DeleteAll(t.segments, sources), replacement),
             retired := t.retired + PathSet(Paths(sources))),
          Ok(Paths(sources)))
  }

  // ------------------------------------------------------ log conservation

  lemma {:induction false} MaxLastOfTiled(segments: seq<Segment>)
    requires Tiled(segments) && segments != []
    ensures MaxLast(segments) == segments[|segments| - 1].last
    decreases |segments|
  {
    if |segments| > 1 {
      TiledSlice(segments, 1, |segments|);
      assert segments[1..] == segments[1..|segments|];
      MaxLastOfTiled(segments[1..]);
      FirstsIncrease(segments, 0, |segments| - 1);
    }
  }

  lemma {:induction false} InsertBetween(before: seq<Segment>, after: seq<Segment>, s: Segment)
    requires forall i :: 0 <= i < |before| ==> before[i].first <= s.first
    requires after != [] ==> s.first < after[0].first
    ensures Insert(before + after, s) == before + [s] + after
    decreases |before|
  {
    if before == [] {
      assert before + after == after;
    } else {
      assert (before + after)[1..] == before[1..] + after;
      InsertBetween(before[1..], after, s);
      assert [before[0]] + (before[1..] + [s] + after) == before + [s] + after;
    }
  }

  /** A registration that is accepted goes to the end of the catalog. */
  lemma RegistrationAppends(t: Tables, batch: nat, rows: seq<Row>, segment: Segment)
    requires Tiled(t.segments) && Describes(segment)
    requires Registered(t, batch, rows, segment).1 == Ok(Accepted)
    ensures var u := Registered(t, batch, rows, segment).0;
            u.segments == t.segments + [segment] && u.retired == t.retired
    ensures t.segments != [] ==> segment.first == t.segments[|t.segments| - 1].last + 1
  {
    var segments := t.segments;
    if segments != [] { MaxLastOfTiled(segments); }
    hide MaxLast, HasPath, Insert;
    forall i | 0 <= i < |segments|
      ensures segments[i].first <= segment.first
    {
      if i < |segments| - 1 { FirstsIncrease(segments, i, |segments| - 1); }
      assert Describes(segments[|segments| - 1]);
    }
    InsertBetween(segments, [], segment);
    assert segments + [] == segments && segments + [segment] + [] == segments + [segment];
  }

  /** An accepted batch extends the log by exactly its rows and keeps the tiling. */
  lemma RegistrationExtendsLog(t: Tables, batch: nat, rows: seq<Row>, segment: Segment)
    requires Tiled(t.segments) && Describes(segment) && RowsOf(segment.path) == rows
    requires Registered(t, batch, rows, segment).1 == Ok(Accepted)
    ensures var u := Registered(t, batch, rows, segment).0;
            && u.segments == t.segments + [segment] && Tiled(u.segments)
            && LogOf(u.segments) == LogOf(t.segments) + rows
            && u.retired == t.retired
  {
    RegistrationAppends(t, batch, rows, segment);
    hide Registered, Insert, MaxLast, HasPath, Describes;
    var segments := t.segments;
    TiledConcat(segments, [segment]);
    LogConcat(segments, [segment]);
    LogOfOne(segment);
  }

  ghost predicate DistinctPaths(segments: seq<Segment>) {
    forall i, j :: 0 <= i < j < |segments| ==> segments[i].path != segments[j].path
  }

  lemma TiledPathsAreDistinct(segments: seq<Segment>)
    requires Tiled(segments)
    ensures DistinctPaths(segments)
  {
    forall i, j | 0 <= i < j < |segments|
      ensures segments[i].path != segments[j].path
    {
      FirstsIncrease(segments, i, j);
      assert Describes(segments[i]) && Describes(segments[j]);
      assert RowsOf(segments[i].path)[0].sequence == segments[i].first;
      assert RowsOf(segments[j].path)[0].sequence == segments[j].first;
    }
  }

  /** Adjacent segments that are all active form one slice of a tiled catalog. */
  lemma {:induction false} SourcesAreSlice(segments: seq<Segment>, sources: seq<Segment>) returns (i: nat)
    requires Tiled(segments) && sources != [] && Adjacent(sources)
    requires forall k :: 0 <= k < |sources| ==> sources[k] in segments
    ensures i + |sources| <= |segments| && sources == segments[i..i + |sources|]
    decreases |sources|
  {
    hide Tiled, Describes;
    var n := |sources| - 1;
    if n == 0 {
      i :| 0 <= i < |segments| && segments[i] == sources[0];
    } else {
      var init := sources[..n];
      assert sources == init + [sources[n]];
      assert forall k :: 0 <= k < n ==> init[k] == sources[k];
      i := SourcesAreSlice(segments, init);
      assert segments[i + n - 1] == segments[i..i + n][n - 1] == sources[n - 1];
      var j :| 0 <= j < |segments| && segments[j] == sources[n];
      NextInTiling(segments, i + n - 1, j);
      assert segments[i..i + n + 1] == segments[i..i + n] + [segments[i + n]];
    }
  }

  lemma NextInTiling(segments: seq<Segment>, i: nat, j: nat)
    requires Tiled(segments) && i < |segments| && j < |segments|
    requires segments[j].first == segments[i].last + 1
    ensures j == i + 1
  {
    assert Describes(segments[i]) && Describes(segments[j]);
    if j < i { FirstsIncrease(segments, j, i); }
    if i + 1 < j { FirstsIncrease(segments, i + 1, j); }
  }

  lemma {:induction false} DeleteAt(before: seq<Segment>, s: Segment, after: seq<Segment>)
    requires forall i :: 0 <= i < |before| ==> before[i].path != s.path
    ensures Delete(before + [s] + after, s.path) == before + after
    decreases |before|
  {
    if before == [] {
      assert (before + [s] + after)[1..] == after == before + after;
    } else {
      assert (before + [s] + after)[1..] == before[1..] + [s] + after;
      DeleteAt(before[1..], s, after);
      assert [before[0]] + (before[1..] + after) == before + after;
    }
  }

  lemma {:induction false} DeleteSlice(before: seq<Segment>, slice: seq<Segment>, after: seq<Segment>)
    requires DistinctPaths(before + slice)
    ensures DeleteAll(before + slice + after, slice) == before + after
    decreases |slice|
  {
    if slice == [] {
      assert before + slice + after == before + after;
    } else {
      var rest := slice[1..];
      assert before + slice + after == before + [slice[0]] + (rest + after);
      forall i | 0 <= i < |before|
        ensures before[i].path != slice[0].path
      {
        assert (before + slice)[i] == before[i] && (before + slice)[|before|] == slice[0];
      }
      DeleteAt(before, slice[0], rest + after);
      assert before + (rest + after) == before + rest + after;
      DistinctWithout(before, slice);
      DeleteSlice(before, rest, after);
    }
  }

  lemma DistinctWithout(before: seq<Segment>, slice: seq<Segment>)
    requires slice != [] && DistinctPaths(before + slice)
    ensures DistinctPaths(before + slice[1..])
  {
    var all, fewer := before + slice, before + slice[1..];
    forall i, j | 0 <= i < j < |fewer|
      ensures fewer[i].path != fewer[j].path
    {
      var i', j' := if i < |before| then i else i + 1, if j < |before| then j else j + 1;
      assert fewer[i] == all[i'] && fewer[j] == all[j'];
    }
  }

  /** The entry that `compact_once` registers for the file merged from `sources`. */
  function Compacted(sources: seq<Segment>): Segment
    requires sources != []
  {
    var first, last := sources[0], sources[|sources| - 1];
    Segment(Merged(first.first, last.last, first.signature, Paths(sources)), first.signature, first.first, last.last,
            TotalRows(sources))
  }

  lemma CompactedDescribes(sources: seq<Segment>)
    requires Tiled(sources) && sources != []
    ensures Describes(Compacted(sources)) && RowsOf(Compacted(sources).path) == LogOf(sources)
  {
    TiledLogIsConsecutive(sources);
  }

  /** Replacing one slice of a tiled catalog by its merged segment. */
  lemma SpliceKeepsLog(segments: seq<Segment>, i: nat, k: nat)
    requires Tiled(segments) && i < k <= |segments|
    ensures var spliced := segments[..i] + [Compacted(segments[i..k])] + segments[k..];
            Tiled(spliced) && LogOf(spliced) == LogOf(segments)
  {
    hide Describes, LogOf;
    var before, slice, after := segments[..i], segments[i..k], segments[k..];
    TiledSlice(segments, 0, i);
    TiledSlice(segments, i, k);
    TiledSlice(segments, k, |segments|);
    assert after == segments[k..|segments|];
    CompactedDescribes(slice);
    var merged := Compacted(slice);
    TiledConcat(before, [merged]);
    TiledConcat(before + [merged], after);
    assert segments == before + slice + after;
    LogConcat(before + slice, after);
    LogConcat(before, slice);
    LogConcat(before + [merged], after);
    LogConcat(before, [merged]);
    LogOfOne(merged);
  }

  lemma SplicePosition(segments: seq<Segment>, i: nat, k: nat)
    requires Tiled(segments) && i < k <= |segments|
    ensures DeleteAll(segments, segments[i..k]) == segments[..i] + segments[k..]
    ensures Insert(segments[..i] + segments[k..], Compacted(segments[i..k]))
            == segments[..i] + [Compacted(segments[i..k])] + segments[k..]
  {
    var before, slice, after := segments[..i], segments[i..k], segments[k..];
    assert segments == before + slice + after;
    TiledSlice(segments, 0, k);
    assert before + slice == segments[0..k];
    TiledPathsAreDistinct(before + slice);
    DeleteSlice(before, slice, after);
    forall j | 0 <= j < |before|
      ensures before[j].first <= segments[i].first
    {
      FirstsIncrease(segments, j, i);
    }
    if k < |segments| { FirstsIncrease(segments, i, k); }
    hide Tiled, DeleteAll;
    InsertBetween(before, after, Compacted(slice));
  }

  lemma ReplacedUnfolds(t: Tables, sources: seq<Segment>, replacement: Segment)
    requires Replaced(t, sources, replacement).1.Ok?
    ensures sources != [] && Adjacent(sources)
    ensures forall k :: 0 <= k < |sources| ==> sources[k] in t.segments
    ensures Replaced(t, sources, replacement).0
            == t.(segments := Insert(DeleteAll(t.segments, sources), replacement),
                  retired := t.retired + PathSet(Paths(sources)))
  {
  }

  /**
    A successful replacement, stale candidates included, splices the merged segment in
    place of its sources: the log, the tiling and every other segment are unchanged.
   */
  lemma ReplacementKeepsLog(t: Tables, sources: seq<Segment>) returns (i: nat)
    requires Tiled(t.segments) && sources != []
    requires Replaced(t, sources, Compacted(sources)).1.Ok?
    ensures var u, k := Replaced(t, sources, Compacted(sources)).0, i + |sources|;
            && k <= |t.segments| && sources == t.segments[i..k]
            && u.segments == t.segments[..i] + [Compacted(sources)] + t.segments[k..]
            && Tiled(u.segments) && LogOf(u.segments) == LogOf(t.segments)
            && u.batches == t.batches && u.running == t.running
            && u.retired == t.retired + PathSet(Paths(sources))
  {
    hide *;
    ReplacedUnfolds(t, sources, Compacted(sources));
    i := SourcesAreSlice(t.segments, sources);
    SplicePosition(t.segments, i, i + |sources|);
    SpliceKeepsLog(t.segments, i, i + |sources|);
  }
}

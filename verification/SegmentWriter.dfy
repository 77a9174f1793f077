/** Copying the rows of the compaction sources into one file, with the checks made on the way. */
module SegmentWriter {
  import opened Wrappers
  import opened MetricLog
  import opened SegmentCatalog
  import opened Compaction
  import opened CompactionSafety

  datatype StorageError = InvalidSegment | MissingFile

  ghost predicate AllPresent(files: map<Path, seq<Row>>, sources: seq<Segment>) {
    forall i :: 0 <= i < |sources| ==> sources[i].path in files
  }

  function Joined(files: map<Path, seq<Row>>, sources: seq<Segment>): seq<Row>
    requires AllPresent(files, sources)
  {
    if sources == [] then []
    else Joined(files, sources[..|sources| - 1]) + files[sources[|sources| - 1].path]
  }

  /** What is copied from truthful files is the log of the sources. */
  lemma {:induction false} JoinedIsLog(files: map<Path, seq<Row>>, sources: seq<Segment>)
    requires AllPresent(files, sources) && forall p :: p in files ==> files[p] == RowsOf(p)
    ensures Joined(files, sources) == LogOf(sources)
  {
    hide LogOf, RowsOf;
    if sources == [] {
      LogOfNothing();
    } else {
      var n := |sources| - 1;
      JoinedIsLog(files, sources[..n]);
      LogOfNext(sources, n);
      assert sources[..n + 1] == sources;
    }
  }

  /** The row-by-row check of one file that continues `copied`. */
  method CheckSequence(copied: seq<Row>, rows: seq<Row>, first: nat) returns (consecutive: bool)
    requires Consecutive(copied, first)
    ensures consecutive == Consecutive(copied + rows, first)
  {
    var previous := if copied == [] then None else Some(copied[|copied| - 1].sequence);
    var n := 0;
    while n < |rows|
      invariant n <= |rows| && Consecutive(copied + rows[..n], first)
      invariant previous == if |copied| + n == 0 then None else Some(first + |copied| + n - 1)
    {
      var expected := if previous.Some? then previous.value + 1 else first;
      assert (copied + rows)[|copied| + n] == rows[n];
      if rows[n].sequence != expected { return false; }
      previous := Some(rows[n].sequence);
      assert copied + rows[..n + 1] == copied + rows[..n] + [rows[n]];
      n := n + 1;
    }
    assert rows[..n] == rows;
    return true;
  }

  lemma {:induction false} ConsecutivePrefix(files: map<Path, seq<Row>>, sources: seq<Segment>, n: nat, first: nat)
    requires AllPresent(files, sources) && n <= |sources| && Consecutive(Joined(files, sources), first)
    ensures Consecutive(Joined(files, sources[..n]), first)
    decreases |sources| - n
  {
    if n < |sources| {
      ConsecutivePrefix(files, sources, n + 1, first);
      assert sources[..n + 1][..n] == sources[..n];
      assert forall i :: 0 <= i < |Joined(files, sources[..n])| ==>
          Joined(files, sources[..n])[i] == Joined(files, sources[..n + 1])[i];
    } else {
      assert sources[..n] == sources;
    }
  }

  method WriteCompacted(files: map<Path, seq<Row>>, sources: seq<Segment>) returns (r: Result<seq<Row>, StorageError>)
    requires sources != []
    ensures r == Err(MissingFile) ==> !AllPresent(files, sources)
    ensures r.Ok? ==> AllPresent(files, sources) && r.value == Joined(files, sources)
    ensures r.Ok? <==> AllPresent(files, sources) && Accepts(sources, Joined(files, sources))
  {
    hide TotalRows, SchemaOf;
    var copied: seq<Row> := [];
    var n := 0;
    while n < |sources|
      invariant n <= |sources| && AllPresent(files, sources[..n])
      invariant SameSchema(sources[..n])
      invariant copied == Joined(files, sources[..n]) && Consecutive(copied, sources[0].first)
    {
      var p := sources[n].path;
      if p !in files { return Err(MissingFile); }
      if SchemaOf(p) != SchemaOf(sources[0].path) { return Err(InvalidSegment); }
      assert sources[..n + 1][..n] == sources[..n];
      var consecutive := CheckSequence(copied, files[p], sources[0].first);
      if !consecutive {
        if AllPresent(files, sources) && Accepts(sources, Joined(files, sources)) {
          ConsecutivePrefix(files, sources, n + 1, sources[0].first);
        }
        return Err(InvalidSegment);
      }
      copied := copied + files[p];
      n := n + 1;
    }
    assert sources[..n] == sources;
    var rows := SumRows(sources);
    if |copied| != rows || copied == [] || copied[|copied| - 1].sequence != sources[|sources| - 1].last {
      return Err(InvalidSegment);
    }
    return Ok(copied);
  }

  method SumRows(sources: seq<Segment>) returns (total: nat)
    ensures total == TotalRows(sources)
  {
    total := 0;
    var n := 0;
    while n < |sources|
      invariant n <= |sources| && total == TotalRows(sources[..n])
    {
      assert sources[..n + 1] == sources[..n] + [sources[n]];
      TotalRowsSnoc(sources[..n], sources[n]);
      total := total + sources[n].rowCount;
      n := n + 1;
    }
    assert sources[..n] == sources;
  }

  /** In every sound state the copy succeeds and its content is what the output's name promises. */
  lemma SoundCopySucceeds(t: Tables, files: map<Path, seq<Row>>, sources: seq<Segment>, target: nat)
    requires TablesSound(t) && FilesSound(t, files) && SourcesSound(t, sources, target)
    ensures AllPresent(files, sources) && Accepts(sources, Joined(files, sources))
    ensures sources != [] && Joined(files, sources) == RowsOf(Compacted(sources).path)
  {
    hide TablesSound, LogOf, RowsOf, Compacted, Accepts;
    forall k | 0 <= k < |sources|
      ensures sources[k].path in files
    {
      SourceIsPresent(t, files, sources, k);
    }
    JoinedIsLog(files, sources);
    ContentIsAccepted(t, sources, target);
    OutputIsTrue(sources);
  }
}

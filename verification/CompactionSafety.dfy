/** What every step of ingest, readers and compaction keeps, and what follows for whole runs. */
module CompactionSafety {
  import opened Wrappers
  import opened MetricLog
  import opened SegmentCatalog
  import opened CompactionCandidates
  import opened WriteAmplification
  import opened Compaction

  // ------------------------------------------------------------ invariant

  /** An ingested file's batch number is taken, by these very rows. */
  ghost predicate Known(t: Tables, p: Path) {
    p.Raw? ==> p.batch in t.batches && t.batches[p.batch] == p.rows
  }

  ghost predicate StrictlyInside(p: Path, a: Segment) {
    && RowsOf(p) != [] && |RowsOf(p)| < a.rowCount
    && a.first <= RowsOf(p)[0].sequence && RowsOf(p)[|RowsOf(p)| - 1].sequence <= a.last
  }

  /** A retired file's rows live on in a strictly larger active segment. */
  ghost predicate Covered(segments: seq<Segment>, p: Path) {
    exists i :: 0 <= i < |segments| && StrictlyInside(p, segments[i])
  }

  ghost predicate TablesSound(t: Tables) {
    && Tiled(t.segments)
    && (forall i :: 0 <= i < |t.segments| ==> Known(t, t.segments[i].path))
    && (forall p :: p in t.retired ==> Known(t, p) && Covered(t.segments, p))
  }

  /** No file lies about its rows, and every active segment has its file. */
  ghost predicate FilesSound(t: Tables, files: map<Path, seq<Row>>) {
    && (forall p :: p in files ==> files[p] == RowsOf(p))
    && (forall i :: 0 <= i < |t.segments| ==> t.segments[i].path in files)
  }

  /** What a reader has listed is still active. */
  ghost predicate ReadersSound(t: Tables, readers: map<nat, set<Path>>) {
    forall id :: id in readers ==> readers[id] <= ActivePaths(t)
  }

  ghost predicate IngestSound(t: Tables, files: map<Path, seq<Row>>, ingest: Ingest) {
    match ingest
    case NoIngest => true
    case Checked(batch, rows) => ValidBatch(rows) && batch !in t.batches && t.running
    case Written(batch, rows, _) => ValidBatch(rows) && batch !in t.batches && t.running && Raw(batch, rows) in files
    case Rejected(_, _) => true
    case Unregistered(batch, rows) => !IsRegistered(t, Raw(batch, rows))
  }

  ghost predicate SourcesSound(t: Tables, sources: seq<Segment>, target: nat) {
    && MIN_COMPACTION_INPUT_SEGMENTS <= |sources| && Compactable(sources, target)
    && forall i :: 0 <= i < |sources| ==> sources[i] in t.segments
  }

  ghost predicate WorkerSound(t: Tables, files: map<Path, seq<Row>>, worker: Worker, target: nat) {
    match worker
    case Resting => true
    case Listed(paths) => PathSet(paths) <= t.retired
    case Purging(todo, removed) => PathSet(todo) <= t.retired && PathSet(removed) <= t.retired
    case Retiring(todo, removed) => PathSet(todo) <= t.retired && PathSet(removed) <= t.retired
    case Selecting => true
    case Merging(sources, done, content) =>
      SourcesSound(t, sources, target) && done <= |sources| && content == LogOf(sources[..done])
    case Installed(sources, _) => SourcesSound(t, sources, target) && Compacted(sources).path in files
    case Replacing(sources, _) => SourcesSound(t, sources, target) && Compacted(sources).path in files
    case Disowned(output, _) => output.Merged?
    case Dropping(output, _) => output.Merged? && !IsRegistered(t, output)
  }

  ghost predicate Accounted(t: Tables, accepted: seq<Row>, rewritten: nat, target: nat) {
    && LogOf(t.segments) == accepted
    && rewritten == WorkOfAll(Paths(t.segments))
    && forall i :: 0 <= i < |t.segments| ==> Economical(t.segments[i].path, target)
  }

  ghost predicate Inv(s: State, target: nat) {
    && TablesSound(s.tables)
    && FilesSound(s.tables, s.files)
    && ReadersSound(s.tables, s.readers)
    && IngestSound(s.tables, s.files, s.ingest)
    && WorkerSound(s.tables, s.files, s.worker, target)
    && (HoldsWriteLock(s.worker) ==> s.readers == map[])
    && Accounted(s.tables, s.accepted, s.rewritten, target)
  }

  function Initial(): State {
    State(Tables([], map[], {}, true), map[], NoIngest, Resting, map[], [], 0)
  }

  // ---------------------------------------------------------------- paths

  lemma ActiveIndex(t: Tables, p: Path) returns (i: nat)
    requires p in ActivePaths(t)
    ensures i < |t.segments| && t.segments[i].path == p
  {
    i :| 0 <= i < |Paths(t.segments)| && Paths(t.segments)[i] == p;
  }

  lemma IsActive(t: Tables, i: nat)
    requires i < |t.segments|
    ensures t.segments[i].path in ActivePaths(t)
  {
    assert Paths(t.segments)[i] == t.segments[i].path;
  }

  lemma RangeOfDescribed(a: Segment)
    requires Describes(a)
    ensures RowsOf(a.path) != [] && |RowsOf(a.path)| == a.rowCount && a.first <= a.last
    ensures RowsOf(a.path)[0].sequence == a.first && RowsOf(a.path)[|RowsOf(a.path)| - 1].sequence == a.last
  {
  }

  /** A retired path is never an active one. */
  lemma RetiredIsNotActive(t: Tables)
    requires TablesSound(t)
    ensures forall p :: p in t.retired ==> p !in ActivePaths(t)
  {
    hide Describes, RowsOf, ActivePaths;
    forall p | p in t.retired
      ensures p !in ActivePaths(t)
    {
      if p in ActivePaths(t) {
        var j := ActiveIndex(t, p);
        var i :| 0 <= i < |t.segments| && StrictlyInside(p, t.segments[i]);
        InsideNothingElse(t.segments, i, j);
      }
    }
  }

  lemma InsideNothingElse(segments: seq<Segment>, i: nat, j: nat)
    requires Tiled(segments) && i < |segments| && j < |segments|
    ensures !StrictlyInside(segments[j].path, segments[i])
  {
    RangeOfDescribed(segments[i]);
    RangeOfDescribed(segments[j]);
    if i < j { FirstsIncrease(segments, i, j); }
    if j < i { FirstsIncrease(segments, j, i); }
  }

  // -------------------------------------------------------------- catalog

  lemma BatchDescribed(batch: nat, rows: seq<Row>)
    requires ValidBatch(rows)
    ensures Describes(SegmentOf(batch, rows)) && RowsOf(SegmentOf(batch, rows).path) == rows
    ensures Depth(SegmentOf(batch, rows).path) == 0 && Work(SegmentOf(batch, rows).path) == 0
  {
    BatchIsConsecutive(rows, |rows|);
  }

  lemma {:induction false} BatchIsConsecutive(rows: seq<Row>, n: nat)
    requires ValidBatch(rows) && n <= |rows|
    ensures forall i :: 0 <= i < n ==> rows[i].sequence == rows[0].sequence + i
  {
    if n > 1 {
      BatchIsConsecutive(rows, n - 1);
      assert rows[n - 1].sequence == rows[n - 2].sequence + 1;
    }
  }

  /** Registering a new batch either extends the catalog by one segment or reports a sequence gap. */
  lemma RegistrationOutcome(t: Tables, batch: nat, rows: seq<Row>)
    requires TablesSound(t) && ValidBatch(rows) && batch !in t.batches && t.running
    ensures var (u, r) := Registered(t, batch, rows, SegmentOf(batch, rows));
            && (r == Ok(Accepted) || (r == Err(SequenceGap) && u == t))
            && (r == Ok(Accepted) ==> u.batches == t.batches[batch := rows] && u.running)
  {
    hide Tiled, Insert, MaxLast, Covered;
    forall i | 0 <= i < |t.segments|
      ensures t.segments[i].path != Raw(batch, rows)
    {
      assert Known(t, t.segments[i].path);
    }
  }

  lemma RegistrationIsSound(t: Tables, batch: nat, rows: seq<Row>)
    requires TablesSound(t) && ValidBatch(rows) && batch !in t.batches && t.running
    requires Registered(t, batch, rows, SegmentOf(batch, rows)).1 == Ok(Accepted)
    ensures var u := Registered(t, batch, rows, SegmentOf(batch, rows)).0;
            TablesSound(u) && u.segments == t.segments + [SegmentOf(batch, rows)] && u.retired == t.retired
            && u.batches == t.batches[batch := rows] && LogOf(u.segments) == LogOf(t.segments) + rows
  {
    hide Tiled, Describes, Registered, LogOf, RowsOf, StrictlyInside;
    var u := Registered(t, batch, rows, SegmentOf(batch, rows)).0;
    BatchDescribed(batch, rows);
    RegistrationOutcome(t, batch, rows);
    RegistrationExtendsLog(t, batch, rows, SegmentOf(batch, rows));
    forall p | p in t.retired
      ensures Covered(u.segments, p)
    {
      var i :| 0 <= i < |t.segments| && StrictlyInside(p, t.segments[i]);
      assert u.segments[i] == t.segments[i];
    }
  }

  /** A candidate whose sources are still active always replaces them. */
  lemma ReplacementSucceeds(t: Tables, sources: seq<Segment>, target: nat)
    requires TablesSound(t) && SourcesSound(t, sources, target)
    ensures Replaced(t, sources, Compacted(sources)).1 == Ok(Paths(sources))
  {
    hide Describes, RowsOf, Covered, Known, Comparable, DeleteAll, TotalRows, Insert, HasPath;
    var i := SourcesAreSlice(t.segments, sources);
    SplicePosition(t.segments, i, i + |sources|);
    NoPathClash(t.segments, i, |sources|);
    hide Tiled;
  }

  /** Nothing that stays has the path of the merged segment. */
  lemma NoPathClash(segments: seq<Segment>, i: nat, n: nat)
    requires Tiled(segments) && n > 0 && i + n <= |segments| && Adjacent(segments[i..i + n])
    ensures !HasPath(segments[..i] + segments[i + n..], Compacted(segments[i..i + n]).path)
  {
    hide Describes, RowsOf, TotalRows;
    var sources, rest := segments[i..i + n], segments[..i] + segments[i + n..];
    TiledSlice(segments, i, i + n);
    CompactedDescribes(sources);
    RangeOfDescribed(Compacted(sources));
    forall j | 0 <= j < |rest|
      ensures rest[j].path != Compacted(sources).path
    {
      var j' := if j < i then j else j + n;
      assert rest[j] == segments[j'] && sources[0] == segments[i];
      RangeOfDescribed(segments[j']);
      if segments[j'].first == segments[i].first { FirstDetermines(segments, j', i); }
    }
  }

  lemma FirstDetermines(segments: seq<Segment>, i: nat, j: nat)
    requires Tiled(segments) && i < |segments| && j < |segments| && segments[i].first == segments[j].first
    ensures i == j
  {
    if i < j { FirstsIncrease(segments, i, j); }
    if j < i { FirstsIncrease(segments, j, i); }
  }

  lemma ReplacementIsSound(t: Tables, sources: seq<Segment>, target: nat)
    requires TablesSound(t) && SourcesSound(t, sources, target)
    ensures var u := Replaced(t, sources, Compacted(sources)).0;
            && TablesSound(u) && LogOf(u.segments) == LogOf(t.segments)
            && u.retired == t.retired + PathSet(Paths(sources))
            && u.batches == t.batches && u.running == t.running
            && (forall s :: s in u.segments ==> s in t.segments || s == Compacted(sources))
            && Compacted(sources) in u.segments
  {
    hide Tiled, Describes, RowsOf, Compactable, Replaced, Covered, Known, LogOf, Insert;
    ReplacementSucceeds(t, sources, target);
    var i := ReplacementKeepsLog(t, sources);
    var u, k := Replaced(t, sources, Compacted(sources)).0, i + |sources|;
    assert u.segments[i] == Compacted(sources);
    SpliceMembers(t.segments, i, k, Compacted(sources));
    KnownAfterSplice(t, u, sources, i);
    forall p | p in u.retired
      ensures Known(u, p) && Covered(u.segments, p)
    {
      RetiredAfterSplice(t, u, sources, i, p);
    }
  }

  lemma SpliceMembers(segments: seq<Segment>, i: nat, k: nat, merged: Segment)
    requires i < k <= |segments|
    ensures forall s :: s in segments[..i] + [merged] + segments[k..] ==> s in segments || s == merged
  {
  }

  lemma KnownAfterSplice(t: Tables, u: Tables, sources: seq<Segment>, i: nat)
    requires TablesSound(t) && i + |sources| <= |t.segments| && sources != []
    requires u.segments == t.segments[..i] + [Compacted(sources)] + t.segments[i + |sources|..]
    requires u.batches == t.batches
    ensures forall j :: 0 <= j < |u.segments| ==> Known(u, u.segments[j].path)
  {
    hide Tiled, Covered;
    forall j | 0 <= j < |u.segments|
      ensures Known(u, u.segments[j].path)
    {
      if j < i {
        assert u.segments[j] == t.segments[j];
      } else if j > i {
        assert u.segments[j] == t.segments[j + |sources| - 1];
      }
    }
  }

  lemma RetiredAfterSplice(t: Tables, u: Tables, sources: seq<Segment>, i: nat, p: Path)
    requires TablesSound(t) && |sources| >= 2 && i + |sources| <= |t.segments|
             && sources == t.segments[i..i + |sources|]
    requires u.segments == t.segments[..i] + [Compacted(sources)] + t.segments[i + |sources|..]
    requires u.batches == t.batches
    requires p in t.retired + PathSet(Paths(sources))
    ensures Known(u, p) && Covered(u.segments, p)
  {
    hide Tiled, Describes, RowsOf, Compacted;
    if p in t.retired {
      var j :| 0 <= j < |t.segments| && StrictlyInside(p, t.segments[j]);
      if j < i {
        assert u.segments[j] == t.segments[j];
      } else if j < i + |sources| {
        SourceInside(t.segments, i, |sources|, j - i);
        assert sources[j - i] == t.segments[j];
        InsideLarger(p, t.segments[j], Compacted(sources));
        assert u.segments[i] == Compacted(sources);
      } else {
        assert u.segments[j - |sources| + 1] == t.segments[j];
      }
    } else {
      var j :| 0 <= j < |sources| && sources[j].path == p;
      assert sources[j] == t.segments[i + j];
      SourceInside(t.segments, i, |sources|, j);
      assert u.segments[i] == Compacted(sources);
    }
  }

  lemma InsideLarger(p: Path, a: Segment, b: Segment)
    requires StrictlyInside(p, a) && b.first <= a.first && a.last <= b.last && a.rowCount < b.rowCount
    ensures StrictlyInside(p, b)
  {
  }

  lemma SourceInside(segments: seq<Segment>, i: nat, n: nat, j: nat)
    requires Tiled(segments) && n >= 2 && i + n <= |segments| && j < n
    ensures var merged, a := Compacted(segments[i..i + n]), segments[i + j];
            merged.first <= a.first && a.last <= merged.last && a.rowCount < merged.rowCount
            && StrictlyInside(a.path, merged)
  {
    hide RowsOf, TotalRows, Tiled, Describes;
    SourceRange(segments, i, n, j);
    SourceIsSmaller(segments, i, n, j);
    TiledDescribes(segments, i + j);
    RangeOfDescribed(segments[i + j]);
  }

  lemma SourceRange(segments: seq<Segment>, i: nat, n: nat, j: nat)
    requires Tiled(segments) && n >= 2 && i + n <= |segments| && j < n
    ensures Compacted(segments[i..i + n]).first == segments[i].first <= segments[i + j].first
    ensures segments[i + j].last <= segments[i + n - 1].last == Compacted(segments[i..i + n]).last
  {
    hide RowsOf, TotalRows;
    if j > 0 { FirstsIncrease(segments, i, i + j); }
    if j < n - 1 { FirstsIncrease(segments, i + j, i + n - 1); }
  }

  lemma SourceIsSmaller(segments: seq<Segment>, i: nat, n: nat, j: nat)
    requires Tiled(segments) && n >= 2 && i + n <= |segments| && j < n
    ensures segments[i + j].rowCount < Compacted(segments[i..i + n]).rowCount
  {
    hide RowsOf, TotalRows;
    var sources := segments[i..i + n];
    forall k | 0 <= k < n
      ensures sources[k].rowCount > 0
    {
      assert Describes(segments[i + k]);
    }
    PartOfTotal(sources, j, n);
    assert sources[..n] == sources;
  }

  lemma {:induction false} PartOfTotal(s: seq<Segment>, j: nat, n: nat)
    requires n <= |s| && j < |s| && forall k :: 0 <= k < |s| ==> s[k].rowCount > 0
    ensures TotalRows(s[..n]) >= if j < n then s[j].rowCount + n - 1 else n
    decreases n
  {
    if n > 0 {
      PartOfTotal(s, j, n - 1);
      assert s[..n] == s[..n - 1] + [s[n - 1]];
      TotalRowsSnoc(s[..n - 1], s[n - 1]);
      hide TotalRows;
    }
  }

  /** The path of a merge output has never been in the catalog, neither active nor retired. */
  lemma OutputPathIsNew(t: Tables, sources: seq<Segment>, target: nat)
    requires TablesSound(t) && SourcesSound(t, sources, target)
    ensures sources != [] && !IsRegistered(t, Compacted(sources).path)
  {
    hide *;
    SourcesShape(t, sources, target);
    SoundIsTiled(t);
    var p := Compacted(sources).path;
    var u := Replaced(t, sources, Compacted(sources)).0;
    ReplacementIsSound(t, sources, target);
    var m :| 0 <= m < |u.segments| && u.segments[m] == Compacted(sources);
    IsActive(u, m);
    RetiredIsNotActive(u);
    var i := SourcesAreSlice(t.segments, sources);
    if p in ActivePaths(t) {
      var j := ActiveIndex(t, p);
      OutputIsNoSegment(t.segments, i, |sources|, j);
    }
    NotRegistered(t, p);
  }

  lemma SoundIsTiled(t: Tables)
    requires TablesSound(t)
    ensures Tiled(t.segments)
  {
  }

  lemma NotRegistered(t: Tables, p: Path)
    requires p !in ActivePaths(t) && p !in t.retired
    ensures !IsRegistered(t, p)
  {
  }

  lemma SourcesShape(t: Tables, sources: seq<Segment>, target: nat)
    requires SourcesSound(t, sources, target)
    ensures |sources| >= 4 && Adjacent(sources)
    ensures forall k :: 0 <= k < |sources| ==> sources[k] in t.segments
  {
    hide Adjacent;
  }

  lemma OutputIsNoSegment(segments: seq<Segment>, i: nat, n: nat, j: nat)
    requires Tiled(segments) && n >= 2 && i + n <= |segments| && j < |segments|
    ensures segments[j].path != Compacted(segments[i..i + n]).path
  {
    hide RowsOf, TotalRows;
    TiledSlice(segments, i, i + n);
    CompactedDescribes(segments[i..i + n]);
    RangeOfDescribed(Compacted(segments[i..i + n]));
    RangeOfDescribed(segments[j]);
    SourceInside(segments, i, n, 0);
    if segments[j].first == segments[i].first { FirstDetermines(segments, i, j); }
  }

  // ---------------------------------------------------------------- steps

  lemma IngestKeeps(s: State, a: Step, target: nat)
    requires Inv(s, target) && Enabled(s, a, target)
    requires a.BeginIngest? || a.WriteBatch? || a.CheckRejected?
    ensures Inv(Apply(s, a, target), target) && Apply(s, a, target).accepted == s.accepted
  {
    hide Tiled, Covered, LogOf, RowsOf, Economical, WorkOfAll, Compactable, ActivePaths, ValidBatch, Compacted;
    if a.WriteBatch? { RowsOfRaw(s.ingest.batch, s.ingest.rows); }
  }

  lemma FinishKeeps(s: State, a: Step, target: nat)
    requires Inv(s, target) && Enabled(s, a, target) && a.FinishRun?
    ensures Inv(Apply(s, a, target), target) && Apply(s, a, target).accepted == s.accepted
  {
    hide Tiled, Covered, LogOf, RowsOf, Economical, WorkOfAll, Compactable, Paths, PathSet, Compacted;
  }

  lemma RemoveUnregisteredKeeps(s: State, a: Step, target: nat)
    requires Inv(s, target) && Enabled(s, a, target) && a.RemoveUnregistered?
    ensures Inv(Apply(s, a, target), target) && Apply(s, a, target).accepted == s.accepted
  {
    hide TablesSound, ReadersSound, Accounted, RowsOf, ActivePaths, SourcesSound;
    forall i | 0 <= i < |s.tables.segments|
      ensures s.tables.segments[i].path != Raw(s.ingest.batch, s.ingest.rows)
    {
      IsActive(s.tables, i);
    }
    if s.worker.Installed? || s.worker.Replacing? { OutputIsMerged(s.tables, s.worker.sources, target); }
  }

  lemma OutputIsMerged(t: Tables, sources: seq<Segment>, target: nat)
    requires SourcesSound(t, sources, target)
    ensures sources != [] && Compacted(sources).path.Merged?
  {
  }

  lemma RowsOfRaw(batch: nat, rows: seq<Row>)
    ensures RowsOf(Raw(batch, rows)) == rows
  {
  }

  lemma BatchHasRows(batch: nat, rows: seq<Row>)
    requires ValidBatch(rows)
    ensures rows != [] && SegmentOf(batch, rows).path == Raw(batch, rows)
  {
    hide KeysOf;
  }

  lemma RegisterKeeps(s: State, a: Step, target: nat)
    requires Inv(s, target) && Enabled(s, a, target) && a.RegisterBatch?
    ensures Inv(Apply(s, a, target), target) && s.accepted <= Apply(s, a, target).accepted
  {
    hide Tiled, Covered, LogOf, RowsOf, Economical, WorkOfAll, Compactable, ActivePaths, ValidBatch, Compacted,
         Registered, SegmentOf, TablesSound;
    var Written(batch, rows, isNew) := s.ingest;
    BatchHasRows(batch, rows);
    var (u, r) := Registered(s.tables, batch, rows, SegmentOf(batch, rows));
    RegistrationOutcome(s.tables, batch, rows);
    if r == Ok(Accepted) && !a.outcome.ErrorBeforeCommit? {
      RegistrationIsSound(s.tables, batch, rows);
      BatchDescribed(batch, rows);
      AppendAccounts(s.tables, u, batch, rows, s.rewritten, target);
      ActiveGrows(s.tables, u);
      NewPathIsRaw(s.tables, u, batch, rows);
    }
  }

  lemma AppendAccounts(t: Tables, u: Tables, batch: nat, rows: seq<Row>, rewritten: nat, target: nat)
    requires ValidBatch(rows) && u.segments == t.segments + [SegmentOf(batch, rows)]
    requires LogOf(u.segments) == LogOf(t.segments) + rows
    requires Accounted(t, LogOf(t.segments), rewritten, target)
    ensures Accounted(u, LogOf(t.segments) + rows, rewritten, target)
  {
    var segment := SegmentOf(batch, rows);
    BatchDescribed(batch, rows);
    hide LogOf, RowsOf, WorkOfAll, SegmentOf;
    assert Paths(u.segments) == Paths(t.segments) + [segment.path];
    WorkOfAllConcat(Paths(t.segments), [segment.path]);
    WorkOfOne(segment.path);
    assert Economical(segment.path, target) by { assert Pow(5, 0) == 1 && Pow(2, 0) == 1; }
  }

  lemma ActiveGrows(t: Tables, u: Tables)
    requires t.segments <= u.segments
    ensures ActivePaths(t) <= ActivePaths(u)
  {
    forall p | p in ActivePaths(t)
      ensures p in ActivePaths(u)
    {
      var i := ActiveIndex(t, p);
      assert u.segments[i] == t.segments[i];
      IsActive(u, i);
    }
  }

  lemma NewPathIsRaw(t: Tables, u: Tables, batch: nat, rows: seq<Row>)
    requires rows != [] && u.segments == t.segments + [SegmentOf(batch, rows)] && u.retired == t.retired
    ensures forall p: Path :: p.Merged? && IsRegistered(u, p) ==> IsRegistered(t, p)
  {
    forall p: Path | p.Merged? && p in ActivePaths(u)
      ensures p in ActivePaths(t)
    {
      var i := ActiveIndex(u, p);
      IsActive(t, i);
    }
  }

  lemma SnapshotKeeps(s: State, a: Step, target: nat)
    requires Inv(s, target) && Enabled(s, a, target)
    requires a.OpenSnapshot? || a.ListForSnapshot? || a.CloseSnapshot?
    ensures Inv(Apply(s, a, target), target) && Apply(s, a, target).accepted == s.accepted
  {
    hide TablesSound, FilesSound, IngestSound, WorkerSound, Accounted, ActivePaths, HoldsWriteLock;
  }

  lemma RemovalKeeps(s: State, a: Step, target: nat)
    requires Inv(s, target) && Enabled(s, a, target)
    requires a.ListRetired? || a.LockForPurge? || a.CancelRemoval?
    ensures Inv(Apply(s, a, target), target) && Apply(s, a, target).accepted == s.accepted
  {
    hide TablesSound, FilesSound, IngestSound, ReadersSound, Accounted, SourcesSound;
  }

  lemma RetiredIsKnown(t: Tables, p: Path)
    requires TablesSound(t) && p in t.retired
    ensures Known(t, p)
  {
    hide Tiled, Covered;
  }

  lemma RemoveNextKeeps(s: State, a: Step, target: nat)
    requires Inv(s, target) && Enabled(s, a, target) && a.RemoveNext?
    ensures Inv(Apply(s, a, target), target) && Apply(s, a, target).accepted == s.accepted
  {
    hide TablesSound, ReadersSound, Accounted, RowsOf, ActivePaths, ValidBatch;
    var p := s.worker.todo[0];
    assert p in s.tables.retired;
    RetiredIsNotActive(s.tables);
    RetiredIsKnown(s.tables, p);
    forall i | 0 <= i < |s.tables.segments|
      ensures s.tables.segments[i].path != p
    {
      IsActive(s.tables, i);
    }
  }

  lemma AcknowledgeKeeps(s: State, a: Step, target: nat)
    requires Inv(s, target) && Enabled(s, a, target) && a.AcknowledgeRemoved?
    ensures Inv(Apply(s, a, target), target) && Apply(s, a, target).accepted == s.accepted
  {
    hide Tiled, Covered, LogOf, RowsOf, Economical, WorkOfAll, Compacted, SourcesSound, ValidBatch;
  }

  lemma MergeKeeps(s: State, a: Step, target: nat)
    requires Inv(s, target) && Enabled(s, a, target)
    requires a.SelectCandidate? || a.FindNothing? || a.MergeNext? || a.CancelMerge?
    ensures Inv(Apply(s, a, target), target) && Apply(s, a, target).accepted == s.accepted
  {
    hide TablesSound, FilesSound, IngestSound, ReadersSound, LogOf, RowsOf, Accounted, Compacted, Compactable;
    match a
    case SelectCandidate(sources) =>
      assert sources[..0] == [];
      LogOfNothing();
    case MergeNext =>
      var Merging(sources, done, content) := s.worker;
      SourceIsPresent(s.tables, s.files, sources, done);
      LogOfNext(sources, done);
    case _ =>
  }

  lemma InstallKeeps(s: State, a: Step, target: nat)
    requires Inv(s, target) && Enabled(s, a, target) && a.InstallOutput?
    ensures Inv(Apply(s, a, target), target) && Apply(s, a, target).accepted == s.accepted
  {
    hide TablesSound, IngestSound, ReadersSound, LogOf, RowsOf, Accounted, Compacted, SourcesSound, Accepts;
    var sources := s.worker.sources;
    assert sources[..|sources|] == sources;
    OutputIsTrue(sources);
    IngestKeepsFile(s.tables, s.files, s.files[Compacted(sources).path := s.worker.content], s.ingest);
  }

  lemma IngestKeepsFile(t: Tables, files: map<Path, seq<Row>>, more: map<Path, seq<Row>>, ingest: Ingest)
    requires IngestSound(t, files, ingest) && files.Keys <= more.Keys
    ensures IngestSound(t, more, ingest)
  {
  }

  lemma OutputIsTrue(sources: seq<Segment>)
    requires sources != []
    ensures RowsOf(Compacted(sources).path) == LogOf(sources)
  {
  }

  lemma LogOfNext(sources: seq<Segment>, done: nat)
    requires done < |sources|
    ensures LogOf(sources[..done + 1]) == LogOf(sources[..done]) + RowsOf(sources[done].path)
  {
    assert sources[..done + 1] == sources[..done] + [sources[done]];
    LogConcat(sources[..done], [sources[done]]);
    LogOfOne(sources[done]);
  }

  lemma SourceIsPresent(t: Tables, files: map<Path, seq<Row>>, sources: seq<Segment>, k: nat)
    requires FilesSound(t, files) && k < |sources| && sources[k] in t.segments
    ensures sources[k].path in files && files[sources[k].path] == RowsOf(sources[k].path)
  {
  }

  lemma AbandonKeeps(s: State, locked: bool, target: nat)
    requires Inv(s, target) && (s.worker.Installed? || s.worker.Replacing?)
    requires locked ==> s.worker.Replacing?
    ensures Inv(Abandon(s, locked), target) && Abandon(s, locked).accepted == s.accepted
  {
    hide TablesSound, FilesSound, IngestSound, ReadersSound, Accounted, SourcesSound;
    SourcesShape(s.tables, s.worker.sources, target);
  }

  lemma CleanupKeeps(s: State, a: Step, target: nat)
    requires Inv(s, target) && Enabled(s, a, target)
    requires a.CancelInstalled? || a.LockForReplace? || a.CancelReplace? || a.CheckDisowned?
    ensures Inv(Apply(s, a, target), target) && Apply(s, a, target).accepted == s.accepted
  {
    hide TablesSound, FilesSound, IngestSound, ReadersSound, Accounted, SourcesSound, IsRegistered;
    match a
    case CancelInstalled => AbandonKeeps(s, false, target);
    case CancelReplace => AbandonKeeps(s, true, target);
    case _ =>
  }

  lemma DropKeeps(s: State, a: Step, target: nat)
    requires Inv(s, target) && Enabled(s, a, target) && a.RemoveDisowned?
    ensures Inv(Apply(s, a, target), target) && Apply(s, a, target).accepted == s.accepted
  {
    hide TablesSound, ReadersSound, Accounted, RowsOf, ActivePaths, ValidBatch;
    forall i | 0 <= i < |s.tables.segments|
      ensures s.tables.segments[i].path != s.worker.output
    {
      IsActive(s.tables, i);
    }
  }

  lemma ReplaceKeeps(s: State, a: Step, target: nat)
    requires Inv(s, target) && Enabled(s, a, target) && a.ReplaceSources?
    ensures Inv(Apply(s, a, target), target) && Apply(s, a, target).accepted == s.accepted
  {
    hide Compacted, Replaced, TotalRows, TablesSound, FilesSound, IngestSound, ReadersSound, Accounted, SourcesSound,
         Abandon;
    var sources := s.worker.sources;
    ReplacementSucceeds(s.tables, sources, target);
    if a.outcome.ErrorBeforeCommit? {
      AbandonKeeps(s, true, target);
    } else {
      var u := Replaced(s.tables, sources, Compacted(sources)).0;
      var after := s.(tables := u, rewritten := s.rewritten + TotalRows(sources),
                      worker := Retiring(Paths(sources), []));
      ReplacedState(s, target);
      if a.outcome.ErrorAfterCommit? { AbandonAfterCommit(s, after, target); }
    }
  }

  /** The state after a committed replacement. */
  lemma ReplacedState(s: State, target: nat)
    requires Inv(s, target) && s.worker.Replacing?
    ensures s.worker.sources != []
    ensures var sources := s.worker.sources;
            var u := Replaced(s.tables, sources, Compacted(sources)).0;
            Inv(s.(tables := u, rewritten := s.rewritten + TotalRows(sources),
                   worker := Retiring(Paths(sources), [])), target)
  {
    hide Compacted, Replaced, TotalRows, TablesSound, IngestSound, Accounted, LogOf;
    var sources := s.worker.sources;
    var u := Replaced(s.tables, sources, Compacted(sources)).0;
    ReplacementIsSound(s.tables, sources, target);
    ReplacementAccounts(s.tables, sources, s.accepted, s.rewritten, target);
    FilesAfterReplacement(s.tables, u, s.files, sources);
    IngestAfterReplacement(s.tables, u, s.files, s.ingest, sources);
  }

  lemma FilesAfterReplacement(t: Tables, u: Tables, files: map<Path, seq<Row>>, sources: seq<Segment>)
    requires FilesSound(t, files) && sources != [] && Compacted(sources).path in files
    requires forall s :: s in u.segments ==> s in t.segments || s == Compacted(sources)
    ensures FilesSound(u, files)
  {
    hide Compacted;
    forall i | 0 <= i < |u.segments|
      ensures u.segments[i].path in files
    {
      assert u.segments[i] in u.segments;
    }
  }

  lemma IngestAfterReplacement(t: Tables, u: Tables, files: map<Path, seq<Row>>, ingest: Ingest, sources: seq<Segment>)
    requires IngestSound(t, files, ingest) && sources != []
    requires forall s :: s in u.segments ==> s in t.segments || s == Compacted(sources)
    requires u.batches == t.batches && u.running == t.running && u.retired == t.retired + PathSet(Paths(sources))
    requires forall k :: 0 <= k < |sources| ==> sources[k] in t.segments
    ensures IngestSound(u, files, ingest)
  {
    if ingest.Unregistered? {
      var p := Raw(ingest.batch, ingest.rows);
      if p in ActivePaths(u) {
        var i := ActiveIndex(u, p);
        assert u.segments[i] in u.segments && Compacted(sources).path != p;
        var j :| 0 <= j < |t.segments| && t.segments[j] == u.segments[i];
        IsActive(t, j);
      }
      if p in PathSet(Paths(sources)) {
        var k :| 0 <= k < |sources| && sources[k].path == p;
        var j :| 0 <= j < |t.segments| && t.segments[j] == sources[k];
        IsActive(t, j);
      }
    }
  }

  lemma ReplacementAccounts(t: Tables, sources: seq<Segment>, accepted: seq<Row>, rewritten: nat, target: nat)
    requires TablesSound(t) && SourcesSound(t, sources, target) && Accounted(t, accepted, rewritten, target)
    ensures Accounted(Replaced(t, sources, Compacted(sources)).0, accepted, rewritten + TotalRows(sources), target)
  {
    hide Describes, RowsOf, Tiled, Covered, Known, WorkOfAll, Replaced, Compacted, Economical, Compactable, LogOf,
         TotalRows;
    ReplacementSucceeds(t, sources, target);
    ReplacementIsSound(t, sources, target);
    var i := ReplacementKeepsLog(t, sources);
    var u, k := Replaced(t, sources, Compacted(sources)).0, i + |sources|;
    WorkOfSplice(t.segments, i, k);
    TiledSlice(t.segments, i, k);
    TiledLogIsConsecutive(sources);
    assert forall j :: 0 <= j < |sources| ==> sources[j] == t.segments[i + j];
    MergeIsEconomical(sources, target);
    forall j | 0 <= j < |u.segments|
      ensures Economical(u.segments[j].path, target)
    {
      assert u.segments[j] in u.segments;
    }
  }

  lemma AbandonAfterCommit(s: State, after: State, target: nat)
    requires Inv(s, target) && s.worker.Replacing? && s.worker.sources != [] && Inv(after, target)
    requires after.worker.Retiring?
             && after == s.(tables := after.tables, rewritten := after.rewritten, worker := after.worker)
    ensures Inv(Abandon(s.(tables := after.tables, rewritten := after.rewritten), true), target)
    ensures Abandon(s.(tables := after.tables, rewritten := after.rewritten), true).accepted == s.accepted
  {
    hide TablesSound, FilesSound, IngestSound, ReadersSound, Accounted, SourcesSound;
  }

  lemma CrashKeeps(s: State, target: nat)
    requires Inv(s, target)
    ensures Inv(Apply(s, Crash, target), target)
  {
    hide TablesSound, FilesSound, Accounted, ActivePaths;
  }

  /** Every step of every component keeps the invariant and never shortens or rewrites the accepted log. */
  lemma StepKeeps(s: State, a: Step, target: nat)
    requires Inv(s, target) && Enabled(s, a, target)
    ensures Inv(Apply(s, a, target), target) && s.accepted <= Apply(s, a, target).accepted
  {
    hide *;
    match a
    case Crash => CrashKeeps(s, target); CrashForgets(s, target);
    case RegisterBatch(_) => RegisterKeeps(s, a, target);
    case BeginIngest(_, _) => IngestKeeps(s, a, target);
    case WriteBatch(_) => IngestKeeps(s, a, target);
    case CheckRejected(_) => IngestKeeps(s, a, target);
    case RemoveUnregistered(_) => RemoveUnregisteredKeeps(s, a, target);
    case FinishRun => FinishKeeps(s, a, target);
    case OpenSnapshot(_) => SnapshotKeeps(s, a, target);
    case ListForSnapshot(_) => SnapshotKeeps(s, a, target);
    case CloseSnapshot(_) => SnapshotKeeps(s, a, target);
    case ListRetired(_) => RemovalKeeps(s, a, target);
    case LockForPurge => RemovalKeeps(s, a, target);
    case RemoveNext(_) => RemoveNextKeeps(s, a, target);
    case CancelRemoval => RemovalKeeps(s, a, target);
    case AcknowledgeRemoved => AcknowledgeKeeps(s, a, target);
    case SelectCandidate(_) => MergeKeeps(s, a, target);
    case FindNothing => MergeKeeps(s, a, target);
    case MergeNext => MergeKeeps(s, a, target);
    case InstallOutput(_) => InstallKeeps(s, a, target);
    case CancelMerge => MergeKeeps(s, a, target);
    case ReplaceSources(_) => ReplaceKeeps(s, a, target);
    case RemoveDisowned(_) => DropKeeps(s, a, target);
    case _ => CleanupKeeps(s, a, target);
  }

  lemma CrashForgets(s: State, target: nat)
    ensures Apply(s, Crash, target) == s.(ingest := NoIngest, worker := Resting, readers := map[])
  {
  }

  /** The rows of the sources pass every check made while they are copied. */
  lemma ContentIsAccepted(t: Tables, sources: seq<Segment>, target: nat)
    requires TablesSound(t) && SourcesSound(t, sources, target)
    ensures Accepts(sources, LogOf(sources))
  {
    hide Known, Covered, LogOf, RowsOf, Comparable, Describes, TotalRows, Accepts, SchemaOf;
    var k := SourcesAreSlice(t.segments, sources);
    TiledSlice(t.segments, k, k + |sources|);
    TiledLogIsConsecutive(sources);
    SchemasAgree(sources);
    ConsecutiveIsAccepted(sources);
  }

  /** Equal signatures mean equal columns. */
  lemma SchemasAgree(sources: seq<Segment>)
    requires Tiled(sources) && sources != [] && Adjacent(sources)
    ensures SameSchema(sources)
  {
    hide RowsOf, SchemaOf;
    forall i | 0 <= i < |sources|
      ensures SchemaOf(sources[i].path) == SchemaOf(sources[0].path)
    {
      assert Describes(sources[i]) && Describes(sources[0]);
    }
  }

  lemma ConsecutiveIsAccepted(sources: seq<Segment>)
    requires sources != [] && Consecutive(LogOf(sources), sources[0].first)
    requires sources[0].first + |LogOf(sources)| - 1 == sources[|sources| - 1].last
    requires |LogOf(sources)| == TotalRows(sources) > 0 && SameSchema(sources)
    ensures Accepts(sources, LogOf(sources))
  {
    hide LogOf, TotalRows, SchemaOf;
  }
}

/** Whole runs: the log is conserved, no needed file is lost, rewriting is bounded and compaction ends. */
module CompactionTheorems {
  import opened Wrappers
  import opened MetricLog
  import opened SegmentCatalog
  import opened CompactionCandidates
  import opened CatalogStore
  import opened WriteAmplification
  import opened Compaction
  import opened CompactionSafety

  /** A run of the server from an empty store: any interleaving of enabled steps. */
  ghost predicate Run(states: seq<State>, steps: seq<Step>, target: nat) {
    && |states| == |steps| + 1 && states[0] == Initial()
    && forall i :: 0 <= i < |steps| ==>
         Enabled(states[i], steps[i], target) && states[i + 1] == Apply(states[i], steps[i], target)
  }

  lemma InitialIsSound(target: nat)
    ensures Inv(Initial(), target)
  {
  }

  lemma {:induction false} RunKeeps(states: seq<State>, steps: seq<Step>, target: nat, i: nat)
    requires Run(states, steps, target) && i < |states|
    ensures Inv(states[i], target)
    decreases i
  {
    hide Inv, Enabled, Apply;
    if i == 0 {
      InitialIsSound(target);
    } else {
      RunKeeps(states, steps, target, i - 1);
      StepKeeps(states[i - 1], steps[i - 1], target);
    }
  }

  // ------------------------------------------------------ log conservation

  /** At any point of any run the active segments tile one range and hold the accepted rows in order. */
  lemma LogIsConserved(states: seq<State>, steps: seq<Step>, target: nat, i: nat)
    requires Run(states, steps, target) && i < |states|
    ensures Tiled(states[i].tables.segments) && LogOf(states[i].tables.segments) == states[i].accepted
    ensures states[i].accepted != [] ==> Consecutive(states[i].accepted, states[i].accepted[0].sequence)
  {
    RunKeeps(states, steps, target, i);
    hide Run, LogOf, RowsOf, Describes, Covered, WorkerSound, IngestSound, FilesSound;
    var segments := states[i].tables.segments;
    if segments == [] {
      LogOfNothing();
    } else {
      TiledLogIsConsecutive(segments);
    }
  }

  /** What has been accepted is never changed again: later logs extend earlier ones. */
  lemma {:induction false} LogOnlyGrows(states: seq<State>, steps: seq<Step>, target: nat, i: nat, j: nat)
    requires Run(states, steps, target) && i <= j < |states|
    ensures states[i].accepted <= states[j].accepted
    decreases j
  {
    hide Inv, Enabled, Apply;
    if i < j {
      LogOnlyGrows(states, steps, target, i, j - 1);
      RunKeeps(states, steps, target, j - 1);
      StepKeeps(states[j - 1], steps[j - 1], target);
    }
  }

  /** Only a committed registration adds rows, exactly those of its batch, and at most once per batch number. */
  lemma AcceptedExactly(states: seq<State>, steps: seq<Step>, target: nat, i: nat)
    requires Run(states, steps, target) && i < |steps|
    ensures states[i + 1].accepted != states[i].accepted ==>
              && steps[i].RegisterBatch? && states[i].ingest.Written?
              && states[i + 1].accepted == states[i].accepted + states[i].ingest.rows
              && states[i].ingest.batch !in states[i].tables.batches
              && states[i].ingest.batch in states[i + 1].tables.batches
  {
    RunKeeps(states, steps, target, i);
    var s, a := states[i], steps[i];
    hide LogOf, RowsOf, Covered, WorkerSound, Accounted, FilesSound, ReadersSound, TablesSound, Replaced, Compacted,
         SegmentOf, HasPath, Insert, MaxLast;
    if !a.RegisterBatch? { OthersAcceptNothing(s, a, target); }
  }

  lemma OthersAcceptNothing(s: State, a: Step, target: nat)
    requires Enabled(s, a, target) && !a.RegisterBatch?
    ensures Apply(s, a, target).accepted == s.accepted
  {
    hide Compactable, Replaced, Compacted, IsRegistered, Accepts, PathSet, ActivePaths, TotalRows, HoldsWriteLock;
  }

  // ------------------------------------------------------------- snapshots

  /** While a reader holds its snapshot, a step can only append segments: nothing is replaced under it. */
  lemma StepAppends(s: State, a: Step, target: nat, id: nat)
    requires Inv(s, target) && Enabled(s, a, target) && id in s.readers
    ensures s.tables.segments <= Apply(s, a, target).tables.segments
  {
    NobodyReplaces(s, target, id);
    hide TablesSound, FilesSound, ReadersSound, IngestSound, WorkerSound, Accounted;
    if a.RegisterBatch? {
      RegisterAppends(s, a, target);
    } else {
      OthersKeepSegments(s, a, target);
    }
  }

  lemma NobodyReplaces(s: State, target: nat, id: nat)
    requires Inv(s, target) && id in s.readers
    ensures !HoldsWriteLock(s.worker)
  {
    hide TablesSound, FilesSound, ReadersSound, IngestSound, WorkerSound, Accounted, HoldsWriteLock;
  }

  lemma RegisterAppends(s: State, a: Step, target: nat)
    requires Inv(s, target) && Enabled(s, a, target) && a.RegisterBatch?
    ensures s.tables.segments <= Apply(s, a, target).tables.segments
  {
    hide TablesSound, FilesSound, ReadersSound, WorkerSound, Accounted, ValidBatch, Registered, SegmentOf, LogOf;
    var Written(batch, rows, _) := s.ingest;
    BatchHasRows(batch, rows);
    RegistrationOutcome(s.tables, batch, rows);
    if Registered(s.tables, batch, rows, SegmentOf(batch, rows)).1 == Ok(Accepted) {
      RegistrationIsSound(s.tables, batch, rows);
    }
  }

  lemma OthersKeepSegments(s: State, a: Step, target: nat)
    requires Enabled(s, a, target) && !a.RegisterBatch? && !a.ReplaceSources?
    ensures Apply(s, a, target).tables.segments == s.tables.segments
  {
    hide Compactable, Compacted, IsRegistered, Accepts, PathSet, ActivePaths, TotalRows, HoldsWriteLock;
  }

  /** As long as a reader holds its snapshot, every later listing extends every earlier one. */
  lemma {:induction false} SnapshotSeesAppends(states: seq<State>, steps: seq<Step>, target: nat, id: nat, i: nat,
                                               j: nat)
    requires Run(states, steps, target) && i <= j < |states|
    requires forall k :: i <= k < j ==> id in states[k].readers
    ensures states[i].tables.segments <= states[j].tables.segments
    decreases j
  {
    hide Inv, Enabled, Apply;
    if i < j {
      SnapshotSeesAppends(states, steps, target, id, i, j - 1);
      RunKeeps(states, steps, target, j - 1);
      StepAppends(states[j - 1], steps[j - 1], target, id);
    }
  }

  // ----------------------------------------------------------- file safety

  /** Every active segment's file is there with the right rows, and is not scheduled for deletion. */
  lemma ActiveFilesAreSafe(states: seq<State>, steps: seq<Step>, target: nat, i: nat, k: nat)
    requires Run(states, steps, target) && i < |states| && k < |states[i].tables.segments|
    ensures var s, p := states[i], states[i].tables.segments[k].path;
            p in s.files && s.files[p] == RowsOf(p) && p !in s.tables.retired
  {
    RunKeeps(states, steps, target, i);
    hide Run, LogOf, RowsOf, Describes, Covered, WorkerSound, IngestSound, Accounted, TablesSound;
    RetiredIsNotActive(states[i].tables);
    IsActive(states[i].tables, k);
  }

  /** A reader can open every file it has listed for as long as it holds its snapshot. */
  lemma SnapshotsLoseNothing(states: seq<State>, steps: seq<Step>, target: nat, i: nat, id: nat, p: Path)
    requires Run(states, steps, target) && i < |states| && id in states[i].readers && p in states[i].readers[id]
    ensures p in states[i].files && states[i].files[p] == RowsOf(p)
  {
    RunKeeps(states, steps, target, i);
    hide Run, RowsOf, WorkerSound, IngestSound, Accounted, TablesSound, ActivePaths;
    var k := ActiveIndex(states[i].tables, p);
  }

  /** Merging never misses a source file, and the checks on the copied rows never fail. */
  lemma MergingSucceeds(states: seq<State>, steps: seq<Step>, target: nat, i: nat)
    requires Run(states, steps, target) && i < |states| && states[i].worker.Merging?
    ensures forall k :: 0 <= k < |states[i].worker.sources| ==> states[i].worker.sources[k].path in states[i].files
    ensures states[i].worker.done == |states[i].worker.sources| > 0 ==>
              Accepts(states[i].worker.sources, states[i].worker.content)
  {
    RunKeeps(states, steps, target, i);
    hide Run, RowsOf, LogOf, IngestSound, Accounted, TablesSound, Compactable, Accepts;
    var s := states[i];
    var sources := s.worker.sources;
    forall k | 0 <= k < |sources|
      ensures sources[k].path in s.files
    {
      SourceIsPresent(s.tables, s.files, sources, k);
    }
    if s.worker.done == |sources| > 0 {
      assert sources[..|sources|] == sources;
      ContentIsAccepted(s.tables, sources, target);
    }
  }

  /** The catalog never refuses a replacement: no source is gone, no path clashes. */
  lemma ReplacementNeverConflicts(states: seq<State>, steps: seq<Step>, target: nat, i: nat)
    requires Run(states, steps, target) && i < |states| && states[i].worker.Replacing?
    ensures states[i].worker.sources != []
    ensures var sources := states[i].worker.sources;
            Replaced(states[i].tables, sources, Compacted(sources)).1 == Ok(Paths(sources))
  {
    RunKeeps(states, steps, target, i);
    hide Run, Replaced, IngestSound, Accounted, TablesSound, FilesSound;
    ReplacementSucceeds(states[i].tables, states[i].worker.sources, target);
  }

  /**
    From installation to replacement the output file holds exactly the rows of its sources,
    also when it was left behind by an earlier process and is only reused.
   */
  lemma OutputIsReady(states: seq<State>, steps: seq<Step>, target: nat, i: nat)
    requires Run(states, steps, target) && i < |states| && (states[i].worker.Installed? || states[i].worker.Replacing?)
    ensures states[i].worker.sources != []
    ensures var p := Compacted(states[i].worker.sources).path;
            p in states[i].files && states[i].files[p] == LogOf(states[i].worker.sources)
              && !IsRegistered(states[i].tables, p)
  {
    RunKeeps(states, steps, target, i);
    hide Run, LogOf, RowsOf, IngestSound, Accounted, TablesSound, SourcesSound, Compacted, IsRegistered;
    var sources := states[i].worker.sources;
    OutputPathIsNew(states[i].tables, sources, target);
    OutputIsTrue(sources);
  }

  /** The batch being ingested is refused for a sequence gap or not at all. */
  lemma OnlyGapsAreRefused(states: seq<State>, steps: seq<Step>, target: nat, i: nat)
    requires Run(states, steps, target) && i < |states| && states[i].ingest.Written?
    ensures var Written(batch, rows, _) := states[i].ingest;
            && rows != []
            && Registered(states[i].tables, batch, rows, SegmentOf(batch, rows)).1 in {Ok(Accepted), Err(SequenceGap)}
  {
    RunKeeps(states, steps, target, i);
    hide Run, Registered, SegmentOf, WorkerSound, Accounted, TablesSound, FilesSound;
    RegistrationOutcome(states[i].tables, states[i].ingest.batch, states[i].ingest.rows);
  }

  // ---------------------------------------------------- write amplification

  /** No row is rewritten more than ten times, and all rewriting is at most ten times what was ingested. */
  lemma RewritingIsBounded(states: seq<State>, steps: seq<Step>, target: nat, i: nat)
    requires Run(states, steps, target) && i < |states|
    ensures target <= DEFAULT_TARGET_ROWS ==> states[i].rewritten <= 10 * |states[i].accepted|
    ensures target <= WriteAmplification.MAX_TARGET_ROWS ==> states[i].rewritten <= 12 * |states[i].accepted|
    ensures forall k :: 0 <= k < |states[i].tables.segments| && target <= DEFAULT_TARGET_ROWS ==>
              Depth(states[i].tables.segments[k].path) <= 10
    ensures forall k :: 0 <= k < |states[i].tables.segments| && target <= WriteAmplification.MAX_TARGET_ROWS ==>
              Depth(states[i].tables.segments[k].path) <= 12
  {
    RunKeeps(states, steps, target, i);
    hide Run, RowsOf, WorkOfAll, LogOf, IngestSound, WorkerSound, FilesSound, ReadersSound, Economical, Covered, Known;
    var segments := states[i].tables.segments;
    TotalWorkBound(segments, target);
    forall k | 0 <= k < |segments|
      ensures target <= DEFAULT_TARGET_ROWS ==> Depth(segments[k].path) <= 10
      ensures target <= WriteAmplification.MAX_TARGET_ROWS ==> Depth(segments[k].path) <= 12
    {
      DepthBound(segments[k].path, target);
    }
  }

  // -------------------------------------------------------------- progress

  /** One uninterrupted pass: the catalog's candidate is replaced by its merged segment. */
  ghost predicate Pass(t: Tables, u: Tables, target: nat, limit: nat) {
    exists k: nat, c: seq<Segment> ::
      c != [] && IsCandidate(t.segments, k, c, target, limit) && u == Replaced(t, c, Compacted(c)).0
  }

  lemma CandidateIsSelectable(t: Tables, k: nat, c: seq<Segment>, target: nat, limit: nat)
    requires IsCandidate(t.segments, k, c, target, limit)
    ensures SourcesSound(t, c, target)
  {
    assert forall i :: 0 <= i < |c| ==> c[i] == t.segments[k + i];
  }

  /** A pass removes at least three segments and changes nothing that a reader of the log can see. */
  lemma PassShrinks(t: Tables, u: Tables, target: nat, limit: nat)
    requires TablesSound(t) && Pass(t, u, target, limit)
    ensures TablesSound(u) && |u.segments| + 3 <= |t.segments|
    ensures LogOf(u.segments) == LogOf(t.segments)
  {
    hide TablesSound, SourcesSound, IsCandidate, LogOf, Replaced, Compacted;
    var k: nat, c: seq<Segment> :|
      c != [] && IsCandidate(t.segments, k, c, target, limit) && u == Replaced(t, c, Compacted(c)).0;
    CandidateIsSelectable(t, k, c, target, limit);
    ReplacementIsSound(t, c, target);
    ReplacementSucceeds(t, c, target);
    SoundIsTiled(t);
    var i := ReplacementKeepsLog(t, c);
    SourcesShape(t, c, target);
  }

  /** Without ingest, compaction makes at most a third as many passes as there are segments. */
  lemma {:induction false} PassesAreBounded(passes: seq<Tables>, target: nat, limit: nat)
    requires passes != [] && TablesSound(passes[0])
    requires forall i :: 0 < i < |passes| ==> Pass(passes[i - 1], passes[i], target, limit)
    ensures 3 * (|passes| - 1) + |passes[|passes| - 1].segments| <= |passes[0].segments|
    ensures TablesSound(passes[|passes| - 1]) && LogOf(passes[|passes| - 1].segments) == LogOf(passes[0].segments)
    decreases |passes|
  {
    hide TablesSound, Pass, LogOf;
    if |passes| > 1 {
      PassesAreBounded(passes[..|passes| - 1], target, limit);
      PassShrinks(passes[|passes| - 2], passes[|passes| - 1], target, limit);
    }
  }

  /** Compaction can make a pass exactly when some four-segment window qualifies. */
  lemma PassIffWindow(t: Tables, target: nat, limit: nat)
    requires TablesSound(t) && MIN_COMPACTION_INPUT_SEGMENTS <= limit
    ensures (exists u :: Pass(t, u, target, limit)) <==> exists j: nat :: Qualifies(t.segments, j, target)
  {
    hide TablesSound, Qualifies, Compactable, Replaced, Compacted;
    if j: nat :| Qualifies(t.segments, j, target) {
      var k := FirstWindow(t.segments, target, j);
      WindowFits(t.segments, k, target);
      QualifiesParts(t.segments, k, target);
      var n := Extend(t.segments, k, 4, target, limit);
      var c := t.segments[k..k + n];
      assert IsCandidate(t.segments, k, c, target, limit);
      assert Pass(t, Replaced(t, c, Compacted(c)).0, target, limit);
    }
  }

  lemma QualifiesParts(segments: seq<Segment>, k: nat, target: nat)
    requires Qualifies(segments, k, target)
    ensures k + 4 <= |segments| && Compactable(segments[k..k + 4], target)
  {
    hide Compactable;
  }

  lemma {:induction false} FirstWindow(segments: seq<Segment>, target: nat, j: nat) returns (k: nat)
    requires Qualifies(segments, j, target)
    ensures Qualifies(segments, k, target) && forall m: nat :: m < k ==> !Qualifies(segments, m, target)
    decreases j
  {
    hide Qualifies;
    if m: nat :| m < j && Qualifies(segments, m, target) {
      k := FirstWindow(segments, target, m);
    } else {
      k := j;
    }
  }

  lemma {:induction false} Extend(segments: seq<Segment>, k: nat, n: nat, target: nat, limit: nat) returns (m: nat)
    requires 4 <= n <= limit && k + n <= |segments| && Compactable(segments[k..k + n], target)
    ensures n <= m <= limit && k + m <= |segments| && Compactable(segments[k..k + m], target)
    ensures m == limit || k + m == |segments| || !Compactable(segments[k..k + m + 1], target)
    decreases limit - n
  {
    hide Compactable;
    if n < limit && k + n < |segments| && Compactable(segments[k..k + n + 1], target) {
      m := Extend(segments, k, n + 1, target, limit);
    } else {
      m := n;
    }
  }
}

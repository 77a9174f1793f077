/**
  Cleaning up: a file that is neither in the catalog nor anybody's unfinished business is
  a stray.  Strays are exactly the files some failed step or a crash left behind and no
  later transaction has adopted.
 */
module StrayFiles {
  import opened Wrappers
  import opened MetricLog
  import opened SegmentCatalog
  import opened CompactionCandidates
  import opened Compaction
  import opened CompactionSafety
  import opened CompactionTheorems

  /** Whoever wrote the file knows that it did, and is going to register or to remove it. */
  predicate Owned(ingest: Ingest, worker: Worker, p: Path) {
    || (((ingest.Written? && ingest.isNew) || ingest.Rejected? || ingest.Unregistered?)
        && p == Raw(ingest.batch, ingest.rows))
    || ((worker.Installed? || worker.Replacing?) && worker.isNew
        && worker.sources != [] && p == Compacted(worker.sources).path)
    || ((worker.Disowned? || worker.Dropping?) && p == worker.output)
  }

  predicate Stray(s: State, p: Path) {
    p in s.files && !IsRegistered(s.tables, p) && !Owned(s.ingest, s.worker, p)
  }

  /** The steps that turn away from an unregistered file that exists, or that they have just made. */
  predicate Leaves(s: State, a: Step, p: Path) {
    !IsRegistered(s.tables, p) &&
    match a
    case Crash => p in s.files && Owned(s.ingest, s.worker, p)
    case WriteBatch(Unsynced) => p !in s.files && s.ingest.Checked? && p == Raw(s.ingest.batch, s.ingest.rows)
    case CheckRejected(false) => p in s.files && s.ingest.Rejected? && p == Raw(s.ingest.batch, s.ingest.rows)
    case RemoveUnregistered(false) => p in s.files && s.ingest.Unregistered? && p == Raw(s.ingest.batch, s.ingest.rows)
    case InstallOutput(false) =>
      p !in s.files && s.worker.Merging? && s.worker.sources != [] && p == Compacted(s.worker.sources).path
    case CheckDisowned(false) => p in s.files && s.worker.Disowned? && p == s.worker.output
    case RemoveDisowned(false) => p in s.files && s.worker.Dropping? && p == s.worker.output
    case _ => false
  }

  ghost predicate RemovedAreGone(files: map<Path, seq<Row>>, worker: Worker) {
    worker.Purging? || worker.Retiring? ==> forall p :: p in worker.removed ==> p !in files
  }

  /** A step makes exactly the files strays that it leaves, and ends being a stray only by adopting it. */
  predicate StraysAfter(s: State, a: Step, u: State, p: Path) {
    Stray(u, p) <==> Leaves(s, a, p) || (Stray(s, p) && !IsRegistered(u.tables, p))
  }

  // ---------------------------------------------------------------- ingest

  lemma WorkerOwnsMerges(s: State, target: nat, p: Path)
    requires Inv(s, target) && p.Raw?
    ensures !Owned(NoIngest, s.worker, p)
  {
    hide TablesSound, FilesSound, ReadersSound, Accounted, IngestSound, SourcesSound;
  }

  lemma IngestStrays(s: State, a: Step, target: nat, p: Path)
    requires Inv(s, target) && Enabled(s, a, target)
    requires a.BeginIngest? || a.FinishRun?
    ensures StraysAfter(s, a, Apply(s, a, target), p)
  {
    hide Inv, ValidBatch, PathSet, Paths, Compacted;
  }

  lemma DecisionStrays(s: State, a: Step, target: nat, p: Path)
    requires Inv(s, target) && Enabled(s, a, target) && (a.CheckRejected? || a.RemoveUnregistered?)
    ensures StraysAfter(s, a, Apply(s, a, target), p)
  {
    if p.Raw? { WorkerOwnsMerges(s, target, p); }
    hide Inv, IsRegistered, Compacted;
  }

  lemma WriteStrays(s: State, a: Step, target: nat, p: Path)
    requires Inv(s, target) && Enabled(s, a, target) && a.WriteBatch?
    ensures StraysAfter(s, a, Apply(s, a, target), p)
  {
    if p.Raw? { WorkerOwnsMerges(s, target, p); }
    hide Inv, ValidBatch, IsRegistered, Compacted;
  }

  lemma RegisterStrays(s: State, a: Step, target: nat, p: Path)
    requires Inv(s, target) && Enabled(s, a, target) && a.RegisterBatch?
    ensures StraysAfter(s, a, Apply(s, a, target), p)
  {
    hide *;
    if p.Raw? { WorkerOwnsMerges(s, target, p); }
    RegisterIsForWritten(s, a, target);
    WrittenBatch(s, target);
    RegistrationAdopts(s.tables, s.ingest.batch, s.ingest.rows, p);
    StraysAfterRegister(s, a, target, p);
  }

  lemma RegisterIsForWritten(s: State, a: Step, target: nat)
    requires Enabled(s, a, target) && a.RegisterBatch?
    ensures s.ingest.Written?
  {
    hide ValidBatch;
  }

  lemma StraysAfterRegister(s: State, a: Step, target: nat, p: Path)
    requires Enabled(s, a, target) && a.RegisterBatch? && s.ingest.Written? && s.ingest.rows != []
    requires p.Raw? ==> !Owned(NoIngest, s.worker, p)
    requires var (u, r) := Registered(s.tables, s.ingest.batch, s.ingest.rows,
                                      SegmentOf(s.ingest.batch, s.ingest.rows));
             && (r == Ok(Accepted) || (r.Err? && u == s.tables))
             && (r == Ok(Accepted) ==>
                   IsRegistered(u, Raw(s.ingest.batch, s.ingest.rows))
                     && (IsRegistered(s.tables, p) ==> IsRegistered(u, p)))
    ensures StraysAfter(s, a, Apply(s, a, target), p)
  {
    hide ValidBatch, Compacted, Registered, SegmentOf, IsRegistered;
  }

  lemma WrittenBatch(s: State, target: nat)
    requires Inv(s, target) && s.ingest.Written?
    ensures TablesSound(s.tables) && ValidBatch(s.ingest.rows)
    ensures s.ingest.batch !in s.tables.batches && s.tables.running
  {
    hide TablesSound, FilesSound, ReadersSound, WorkerSound, Accounted, ValidBatch;
  }

  /** Registration adopts the batch's file and no other, or changes nothing. */
  lemma RegistrationAdopts(t: Tables, batch: nat, rows: seq<Row>, p: Path)
    requires TablesSound(t) && ValidBatch(rows) && batch !in t.batches && t.running
    ensures rows != []
    ensures var (u, r) := Registered(t, batch, rows, SegmentOf(batch, rows));
            && (r == Ok(Accepted) || (r.Err? && u == t))
            && (r == Ok(Accepted) ==> IsRegistered(u, Raw(batch, rows)) && (IsRegistered(t, p) ==> IsRegistered(u, p)))
  {
    hide Tiled, Covered, Known, ValidBatch, Registered, SegmentOf, LogOf, ActivePaths;
    BatchHasRows(batch, rows);
    var (u, r) := Registered(t, batch, rows, SegmentOf(batch, rows));
    RegistrationOutcome(t, batch, rows);
    if r == Ok(Accepted) {
      RegistrationIsSound(t, batch, rows);
      ActiveGrows(t, u);
      IsActive(u, |t.segments|);
    }
  }

  // --------------------------------------------------------------- removal

  lemma RemovalStrays(s: State, a: Step, target: nat, p: Path)
    requires Enabled(s, a, target)
    requires a.ListRetired? || a.LockForPurge? || a.CancelRemoval? || a.OpenSnapshot? || a.ListForSnapshot?
             || a.CloseSnapshot?
    ensures StraysAfter(s, a, Apply(s, a, target), p)
  {
    hide IsRegistered, ActivePaths, PathSet, HoldsWriteLock, Compacted;
  }

  lemma RemoveNextStrays(s: State, a: Step, target: nat, p: Path)
    requires Inv(s, target) && Enabled(s, a, target) && a.RemoveNext?
    ensures StraysAfter(s, a, Apply(s, a, target), p)
  {
    hide TablesSound, FilesSound, ReadersSound, Accounted, IngestSound, Compacted, ActivePaths;
    assert s.worker.todo[0] in PathSet(s.worker.todo);
  }

  /** Acknowledged files are gone, so forgetting them makes no strays. */
  lemma AcknowledgeStrays(s: State, a: Step, target: nat, p: Path)
    requires RemovedAreGone(s.files, s.worker) && Enabled(s, a, target) && a.AcknowledgeRemoved?
    ensures StraysAfter(s, a, Apply(s, a, target), p)
  {
    hide Paths, Compacted;
    if p in s.files { assert p !in PathSet(s.worker.removed); }
  }

  // --------------------------------------------------------------- merging

  lemma MergeStrays(s: State, a: Step, target: nat, p: Path)
    requires Inv(s, target) && Enabled(s, a, target)
    requires a.SelectCandidate? || a.FindNothing? || a.MergeNext? || a.CancelMerge?
    ensures StraysAfter(s, a, Apply(s, a, target), p)
  {
    hide Inv, IsRegistered, Compacted, Compactable;
  }

  lemma InstallStrays(s: State, a: Step, target: nat, p: Path)
    requires Inv(s, target) && Enabled(s, a, target) && a.InstallOutput?
    ensures StraysAfter(s, a, Apply(s, a, target), p)
  {
    var sources := s.worker.sources;
    CopyIsAccepted(s, target);
    OutputPathIsNew(s.tables, sources, target);
    OutputIsMerged(s.tables, sources, target);
    hide Inv, IsRegistered, Compacted, Accepts;
  }

  /** A finished copy passes the checks on it. */
  lemma CopyIsAccepted(s: State, target: nat)
    requires Inv(s, target) && s.worker.Merging? && s.worker.done == |s.worker.sources| > 0
    ensures Accepts(s.worker.sources, s.worker.content) && SourcesSound(s.tables, s.worker.sources, target)
    ensures TablesSound(s.tables)
  {
    hide TablesSound, FilesSound, ReadersSound, Accounted, IngestSound, SourcesSound, Accepts, LogOf;
    var sources := s.worker.sources;
    assert sources[..|sources|] == sources;
    ContentIsAccepted(s.tables, sources, target);
  }

  lemma CleanupStrays(s: State, a: Step, target: nat, p: Path)
    requires Inv(s, target) && Enabled(s, a, target)
    requires a.CancelInstalled? || a.LockForReplace? || a.CancelReplace?
    ensures StraysAfter(s, a, Apply(s, a, target), p)
  {
    hide Inv, IsRegistered, Compacted, HoldsWriteLock;
  }

  lemma DropStrays(s: State, a: Step, target: nat, p: Path)
    requires Inv(s, target) && Enabled(s, a, target) && (a.CheckDisowned? || a.RemoveDisowned?)
    ensures StraysAfter(s, a, Apply(s, a, target), p)
  {
    if p.Raw? { WorkerOwnsMerges(s, target, p); }
    hide Inv, IsRegistered, Compacted, HoldsWriteLock;
  }

  lemma ReplaceStrays(s: State, a: Step, target: nat, p: Path)
    requires Inv(s, target) && Enabled(s, a, target) && a.ReplaceSources?
    ensures StraysAfter(s, a, Apply(s, a, target), p)
  {
    hide TablesSound, FilesSound, ReadersSound, Accounted, IngestSound, SourcesSound, IsRegistered, Compacted, Replaced,
         TotalRows;
    var sources := s.worker.sources;
    ReplacementSucceeds(s.tables, sources, target);
    ReplacementIsSound(s.tables, sources, target);
    var u := Replaced(s.tables, sources, Compacted(sources)).0;
    if IsRegistered(s.tables, p) { StaysRegistered(s.tables, u, sources, target, p); }
    OutputIsRegistered(u, Compacted(sources));
  }

  /** A batch that is not registered is not among the removed files. */
  lemma RemovedBatches(s: State, target: nat)
    requires Inv(s, target) && s.ingest.Checked? && (s.worker.Purging? || s.worker.Retiring?)
    ensures Raw(s.ingest.batch, s.ingest.rows) !in s.worker.removed
  {
    hide FilesSound, ReadersSound, Accounted, ValidBatch, Tiled, Covered;
    forall p | p in s.worker.removed
      ensures p != Raw(s.ingest.batch, s.ingest.rows)
    {
      assert p in PathSet(s.worker.removed);
      assert Known(s.tables, p);
    }
  }

  lemma OutputIsRegistered(u: Tables, merged: Segment)
    requires merged in u.segments
    ensures IsRegistered(u, merged.path)
  {
    var i :| 0 <= i < |u.segments| && u.segments[i] == merged;
    IsActive(u, i);
  }

  /** A replaced segment's file is retired, every other one stays active. */
  lemma StaysRegistered(t: Tables, u: Tables, sources: seq<Segment>, target: nat, p: Path)
    requires TablesSound(t) && SourcesSound(t, sources, target) && IsRegistered(t, p)
    requires sources != [] && u == Replaced(t, sources, Compacted(sources)).0
    ensures IsRegistered(u, p)
  {
    hide Tiled, Covered, Known, Compactable, Replaced, Compacted, Describes;
    ReplacementSucceeds(t, sources, target);
    SourcesShape(t, sources, target);
    var i := ReplacementKeepsLog(t, sources);
    if p in ActivePaths(t) {
      var j := ActiveIndex(t, p);
      if j < i {
        assert u.segments[j] == t.segments[j];
        IsActive(u, j);
      } else if j < i + |sources| {
        assert sources[j - i] == t.segments[j] && Paths(sources)[j - i] == p;
      } else {
        assert u.segments[j - |sources| + 1] == t.segments[j];
        IsActive(u, j - |sources| + 1);
      }
    }
  }

  lemma StrayStep(s: State, a: Step, target: nat, p: Path)
    requires Inv(s, target) && RemovedAreGone(s.files, s.worker) && Enabled(s, a, target)
    ensures StraysAfter(s, a, Apply(s, a, target), p)
  {
    hide Inv, Enabled, Apply, StraysAfter, RemovedAreGone;
    match a
    case Crash => CrashStrays(s, target, p);
    case RegisterBatch(_) => RegisterStrays(s, a, target, p);
    case BeginIngest(_, _) => IngestStrays(s, a, target, p);
    case WriteBatch(_) => WriteStrays(s, a, target, p);
    case CheckRejected(_) => DecisionStrays(s, a, target, p);
    case RemoveUnregistered(_) => DecisionStrays(s, a, target, p);
    case FinishRun => IngestStrays(s, a, target, p);
    case RemoveNext(_) => RemoveNextStrays(s, a, target, p);
    case AcknowledgeRemoved => AcknowledgeStrays(s, a, target, p);
    case SelectCandidate(_) => MergeStrays(s, a, target, p);
    case FindNothing => MergeStrays(s, a, target, p);
    case MergeNext => MergeStrays(s, a, target, p);
    case InstallOutput(_) => InstallStrays(s, a, target, p);
    case CancelMerge => MergeStrays(s, a, target, p);
    case CancelInstalled => CleanupStrays(s, a, target, p);
    case LockForReplace => CleanupStrays(s, a, target, p);
    case CancelReplace => CleanupStrays(s, a, target, p);
    case CheckDisowned(_) => DropStrays(s, a, target, p);
    case RemoveDisowned(_) => DropStrays(s, a, target, p);
    case ReplaceSources(_) => ReplaceStrays(s, a, target, p);
    case _ => RemovalStrays(s, a, target, p);
  }

  lemma CrashStrays(s: State, target: nat, p: Path)
    ensures StraysAfter(s, Crash, Apply(s, Crash, target), p)
  {
    hide IsRegistered, Compacted;
  }

  // ------------------------------------------------------------ whole runs

  lemma IngestRemovals(s: State, a: Step, target: nat)
    requires Inv(s, target) && RemovedAreGone(s.files, s.worker) && Enabled(s, a, target)
    requires a.BeginIngest? || a.WriteBatch? || a.CheckRejected? || a.RemoveUnregistered? || a.FinishRun?
    ensures RemovedAreGone(Apply(s, a, target).files, Apply(s, a, target).worker)
  {
    if a.WriteBatch? && (s.worker.Purging? || s.worker.Retiring?) { RemovedBatches(s, target); }
    hide Inv, ValidBatch, IsRegistered;
  }

  lemma RegisterRemovals(s: State, a: Step, target: nat)
    requires RemovedAreGone(s.files, s.worker) && Enabled(s, a, target) && a.RegisterBatch?
    ensures RemovedAreGone(Apply(s, a, target).files, Apply(s, a, target).worker)
  {
    hide RemovedAreGone, ValidBatch, Registered, SegmentOf;
  }

  lemma WorkerRemovals(s: State, a: Step, target: nat)
    requires RemovedAreGone(s.files, s.worker) && Enabled(s, a, target)
    requires !a.BeginIngest? && !a.WriteBatch? && !a.RegisterBatch? && !a.CheckRejected? && !a.RemoveUnregistered?
             && !a.FinishRun?
    ensures RemovedAreGone(Apply(s, a, target).files, Apply(s, a, target).worker)
  {
    hide IsRegistered, Compacted, Replaced, Compactable, Accepts, ActivePaths, PathSet, HoldsWriteLock, TotalRows;
  }

  lemma RemovalsStay(s: State, a: Step, target: nat)
    requires Inv(s, target) && RemovedAreGone(s.files, s.worker) && Enabled(s, a, target)
    ensures RemovedAreGone(Apply(s, a, target).files, Apply(s, a, target).worker)
  {
    hide Inv, RemovedAreGone, Enabled, Apply;
    match a
    case BeginIngest(_, _) => IngestRemovals(s, a, target);
    case WriteBatch(_) => IngestRemovals(s, a, target);
    case RegisterBatch(_) => RegisterRemovals(s, a, target);
    case CheckRejected(_) => IngestRemovals(s, a, target);
    case RemoveUnregistered(_) => IngestRemovals(s, a, target);
    case FinishRun => IngestRemovals(s, a, target);
    case _ => WorkerRemovals(s, a, target);
  }

  lemma {:induction false} RunRemovals(states: seq<State>, steps: seq<Step>, target: nat, i: nat)
    requires Run(states, steps, target) && i < |states|
    ensures RemovedAreGone(states[i].files, states[i].worker)
    decreases i
  {
    hide Inv, Enabled, Apply;
    if i > 0 {
      RunRemovals(states, steps, target, i - 1);
      RunKeeps(states, steps, target, i - 1);
      RemovalsStay(states[i - 1], steps[i - 1], target);
    }
  }

  /** Some earlier step left the file, and it has had no catalog entry since. */
  ghost predicate LeftBehind(states: seq<State>, steps: seq<Step>, i: nat, p: Path)
    requires i <= |steps| < |states|
  {
    exists j :: 0 <= j < i && Leaves(states[j], steps[j], p)
                && forall k :: j < k <= i ==> !IsRegistered(states[k].tables, p)
  }

  /** In any run, crashes and failures included, the strays are exactly the files left behind. */
  lemma {:induction false} StraysAreLeftBehind(states: seq<State>, steps: seq<Step>, target: nat, i: nat, p: Path)
    requires Run(states, steps, target) && i < |states| == |steps| + 1
    ensures Stray(states[i], p) <==> LeftBehind(states, steps, i, p)
    decreases i
  {
    hide Inv, Enabled, Apply, Stray, Leaves, IsRegistered;
    if i == 0 {
      NoStraysAtFirst(p);
    } else {
      StraysAreLeftBehind(states, steps, target, i - 1, p);
      RunRemovals(states, steps, target, i - 1);
      RunKeeps(states, steps, target, i - 1);
      StrayStep(states[i - 1], steps[i - 1], target, p);
      StrayIsUnregistered(states[i], p);
      if LeftBehind(states, steps, i - 1, p) && !IsRegistered(states[i].tables, p) {
        var j :| 0 <= j < i - 1 && Leaves(states[j], steps[j], p)
                 && forall k :: j < k <= i - 1 ==> !IsRegistered(states[k].tables, p);
        assert LeftBehind(states, steps, i, p);
      }
    }
  }

  lemma NoStraysAtFirst(p: Path)
    ensures !Stray(Initial(), p)
  {
  }

  lemma StrayIsUnregistered(s: State, p: Path)
    ensures Stray(s, p) ==> !IsRegistered(s.tables, p)
  {
  }

  /**
    While nothing is in progress, a file is active, waits to be removed, or was left behind:
    by a crash while it was pending, by an error after it got its name, by a question about
    its owner that failed, or by a removal that failed.
   */
  lemma FilesAtRest(states: seq<State>, steps: seq<Step>, target: nat, i: nat, p: Path)
    requires Run(states, steps, target) && i < |states| == |steps| + 1
    requires states[i].ingest.NoIngest? && states[i].worker.Resting? && p in states[i].files
    ensures p in ActivePaths(states[i].tables) || p in states[i].tables.retired || LeftBehind(states, steps, i, p)
    ensures LeftBehind(states, steps, i, p) ==> p !in ActivePaths(states[i].tables) && p !in states[i].tables.retired
  {
    StraysAreLeftBehind(states, steps, target, i, p);
    hide Run, LeftBehind, ActivePaths;
  }

  /** A crash leaves a stray exactly when an unregistered file is pending; older strays stay. */
  lemma CrashLeavesPending(s: State, target: nat, p: Path)
    requires Inv(s, target) && RemovedAreGone(s.files, s.worker)
    ensures Stray(Apply(s, Crash, target), p) && !Stray(s, p) <==>
              p in s.files && !IsRegistered(s.tables, p) && Owned(s.ingest, s.worker, p)
  {
    hide IsRegistered, Owned, Inv;
    CrashStrays(s, target, p);
    CrashForgets(s, target);
  }

  /** A crash between writing and registering does that: the batch's file stays and is in no table. */
  lemma CrashLeavesStray(target: nat)
    ensures var rows := [Row(1, 0, 0, map["loss" := 0.5])];
            var checked := Initial().(ingest := Checked(7, rows));
            && Enabled(Initial(), BeginIngest(7, rows), target)
            && Apply(Initial(), BeginIngest(7, rows), target) == checked
            && Enabled(checked, WriteBatch(Finished), target)
            && Stray(Apply(Apply(checked, WriteBatch(Finished), target), Crash, target), Raw(7, rows))
  {
    assert Paths([]) == [];
  }
}

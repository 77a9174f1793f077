/** What compaction really writes: besides the committed replacements also the merges that came to nothing. */
module RewriteCost {
  import opened MetricLog
  import opened SegmentCatalog
  import opened CompactionCandidates
  import opened WriteAmplification
  import opened Compaction
  import opened CompactionSafety
  import opened CompactionTheorems

  /** The rows a step copies into an output file. */
  function RowsCopied(s: State, a: Step): nat {
    if a.MergeNext? && s.worker.Merging? && s.worker.done < |s.worker.sources|
       && s.worker.sources[s.worker.done].path in s.files
    then |s.files[s.worker.sources[s.worker.done].path]| else 0
  }

  /** A merge this process has written, or is writing, and has not committed. */
  predicate Unfinished(w: Worker) {
    w.Merging? || ((w.Installed? || w.Replacing?) && w.isNew)
  }

  /** An unfinished merge is given up, for whatever reason. */
  predicate Abandons(s: State, u: State) {
    Unfinished(s.worker) && !Unfinished(u.worker) && u.rewritten == s.rewritten
  }

  /** Every row copied so far, kept or not. */
  ghost function Copied(states: seq<State>, steps: seq<Step>, i: nat): nat
    requires i <= |steps| < |states|
  {
    if i == 0 then 0 else Copied(states, steps, i - 1) + RowsCopied(states[i - 1], steps[i - 1])
  }

  /** How many merges have been started in vain, or are not committed yet. */
  ghost function Vain(states: seq<State>, i: nat): nat
    requires i < |states|
  {
    Abandoned(states, i) + if Unfinished(states[i].worker) then 1 else 0
  }

  ghost function Abandoned(states: seq<State>, i: nat): nat
    requires i < |states|
  {
    if i == 0 then 0 else Abandoned(states, i - 1) + if Abandons(states[i - 1], states[i]) then 1 else 0
  }

  /** The rows copied for the merge in hand. */
  function InHand(w: Worker): nat {
    match w
    case Merging(_, _, content) => |content|
    case Installed(sources, isNew) => if isNew then TotalRows(sources) else 0
    case Replacing(sources, isNew) => if isNew then TotalRows(sources) else 0
    case _ => 0
  }

  lemma CopiedPart(t: Tables, sources: seq<Segment>, done: nat, target: nat)
    requires TablesSound(t) && SourcesSound(t, sources, target) && done <= |sources|
    ensures |LogOf(sources[..done])| <= |LogOf(sources)| == TotalRows(sources) <= target
  {
    hide LogOf, TotalRows, Describes, Known, Covered, Comparable, Adjacent;
    var k := SourcesAreSlice(t.segments, sources);
    TiledSlice(t.segments, k, k + |sources|);
    TiledLogIsConsecutive(sources);
    assert sources == sources[..done] + sources[done..];
    LogConcat(sources[..done], sources[done..]);
  }

  /** What is in hand never exceeds the target. */
  lemma InHandIsSmall(s: State, target: nat)
    requires Inv(s, target)
    ensures InHand(s.worker) <= target
    ensures s.worker.Merging? && s.worker.done == |s.worker.sources| ==> InHand(s.worker) == TotalRows(s.worker.sources)
  {
    hide TablesSound, FilesSound, IngestSound, ReadersSound, Accounted, LogOf, TotalRows, SourcesSound;
    match s.worker
    case Merging(sources, done, _) =>
      CopiedPart(s.tables, sources, done, target);
      if done == |sources| { assert sources[..done] == sources; }
    case Installed(sources, _) => CopiedPart(s.tables, sources, 0, target);
    case Replacing(sources, _) => CopiedPart(s.tables, sources, 0, target);
    case _ =>
  }

  /** What a step has to show for the rows it copies. */
  predicate Paid(s: State, a: Step, u: State, target: nat) {
    RowsCopied(s, a) + InHand(s.worker) + s.rewritten
    <= u.rewritten + InHand(u.worker) + if Abandons(s, u) then target else 0
  }

  lemma OthersArePaid(s: State, a: Step, target: nat)
    requires Enabled(s, a, target)
    requires a.BeginIngest? || a.WriteBatch? || a.RegisterBatch? || a.CheckRejected? || a.RemoveUnregistered?
             || a.FinishRun?
             || a.OpenSnapshot? || a.ListForSnapshot? || a.CloseSnapshot?
    ensures Paid(s, a, Apply(s, a, target), target)
  {
    hide Registered, SegmentOf, IsRegistered, ActivePaths, ValidBatch, TotalRows, HoldsWriteLock;
  }

  lemma RemovalIsPaid(s: State, a: Step, target: nat)
    requires Enabled(s, a, target)
    requires a.ListRetired? || a.LockForPurge? || a.RemoveNext? || a.CancelRemoval? || a.AcknowledgeRemoved?
    ensures Paid(s, a, Apply(s, a, target), target)
  {
    hide PathSet, TotalRows;
  }

  lemma MergeIsPaid(s: State, a: Step, target: nat)
    requires Enabled(s, a, target) && InHand(s.worker) <= target
    requires s.worker.Merging? && s.worker.done == |s.worker.sources| ==>
               InHand(s.worker) == TotalRows(s.worker.sources)
    requires a.SelectCandidate? || a.FindNothing? || a.InstallOutput? || a.CancelMerge?
    ensures Paid(s, a, Apply(s, a, target), target)
  {
    hide Compactable, Compacted, Accepts, TotalRows;
  }

  lemma ReplaceIsPaid(s: State, a: Step, target: nat)
    requires Enabled(s, a, target) && InHand(s.worker) <= target
    requires a.CancelInstalled? || a.LockForReplace? || a.CancelReplace? || a.ReplaceSources? || a.CheckDisowned?
             || a.RemoveDisowned?
    ensures Paid(s, a, Apply(s, a, target), target)
  {
    hide Compacted, Replaced, TotalRows, IsRegistered;
  }

  lemma CrashIsPaid(s: State, target: nat)
    requires InHand(s.worker) <= target
    ensures Paid(s, Crash, Apply(s, Crash, target), target)
  {
    hide TotalRows;
  }

  lemma CopyIsInHand(s: State, a: Step, target: nat)
    requires Enabled(s, a, target) && a.MergeNext? && InHand(s.worker) <= target
    ensures Paid(s, a, Apply(s, a, target), target)
  {
  }

  /** No step copies more than it has to show for, unless it gives a merge up. */
  lemma StepIsPaid(s: State, a: Step, target: nat)
    requires Inv(s, target) && Enabled(s, a, target)
    ensures Paid(s, a, Apply(s, a, target), target)
  {
    hide *;
    InHandIsSmall(s, target);
    match a
    case Crash => CrashIsPaid(s, target);
    case ListRetired(_) => RemovalIsPaid(s, a, target);
    case LockForPurge => RemovalIsPaid(s, a, target);
    case RemoveNext(_) => RemovalIsPaid(s, a, target);
    case CancelRemoval => RemovalIsPaid(s, a, target);
    case AcknowledgeRemoved => RemovalIsPaid(s, a, target);
    case SelectCandidate(_) => MergeIsPaid(s, a, target);
    case FindNothing => MergeIsPaid(s, a, target);
    case MergeNext => CopyIsInHand(s, a, target);
    case InstallOutput(_) => MergeIsPaid(s, a, target);
    case CancelMerge => MergeIsPaid(s, a, target);
    case CancelInstalled => ReplaceIsPaid(s, a, target);
    case LockForReplace => ReplaceIsPaid(s, a, target);
    case CancelReplace => ReplaceIsPaid(s, a, target);
    case ReplaceSources(_) => ReplaceIsPaid(s, a, target);
    case CheckDisowned(_) => ReplaceIsPaid(s, a, target);
    case RemoveDisowned(_) => ReplaceIsPaid(s, a, target);
    case _ => OthersArePaid(s, a, target);
  }

  lemma {:induction false} RunIsPaid(states: seq<State>, steps: seq<Step>, target: nat, i: nat)
    requires Run(states, steps, target) && i <= |steps|
    ensures Copied(states, steps, i) <= states[i].rewritten + InHand(states[i].worker) + target * Abandoned(states, i)
    decreases i
  {
    hide Inv, Enabled, Apply, Abandons, RowsCopied, InHand;
    if i > 0 {
      RunIsPaid(states, steps, target, i - 1);
      RunKeeps(states, steps, target, i - 1);
      StepIsPaid(states[i - 1], steps[i - 1], target);
      var before := Abandoned(states, i - 1);
      assert target * (before + 1) == target * before + target;
    }
  }

  /**
    In any run, all rows ever copied are at most ten (twelve) times the accepted ones, and
    the target once more for every merge that was not committed.
   */
  lemma CopyingIsBounded(states: seq<State>, steps: seq<Step>, target: nat, i: nat)
    requires Run(states, steps, target) && i <= |steps|
    ensures target <= DEFAULT_TARGET_ROWS ==>
              Copied(states, steps, i) <= 10 * |states[i].accepted| + target * Vain(states, i)
    ensures target <= WriteAmplification.MAX_TARGET_ROWS ==>
              Copied(states, steps, i) <= 12 * |states[i].accepted| + target * Vain(states, i)
  {
    hide *;
    RunLength(states, steps, target);
    RunIsPaid(states, steps, target, i);
    RewritingIsBounded(states, steps, target, i);
    RunKeeps(states, steps, target, i);
    InHandIsSmall(states[i], target);
    VainParts(states, target, i);
  }

  lemma RunLength(states: seq<State>, steps: seq<Step>, target: nat)
    requires Run(states, steps, target)
    ensures |states| == |steps| + 1
  {
    hide Enabled, Apply;
  }

  lemma VainParts(states: seq<State>, target: nat, i: nat)
    requires i < |states| && InHand(states[i].worker) <= target
    ensures InHand(states[i].worker) + target * Abandoned(states, i) <= target * Vain(states, i)
  {
    hide Abandoned, TotalRows;
    var n := Abandoned(states, i);
    assert target * (n + 1) == target * n + target;
  }
}

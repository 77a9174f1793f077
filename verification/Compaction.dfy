/**
  Segment files, the catalog, ingest, snapshot readers and the compaction worker of one
  run as one state machine.  A step is one SQL transaction, one atomic file operation or
  one lock operation; a step may fail, be cancelled or be followed by a crash.
 */
module Compaction {
  import opened Wrappers
  import opened MetricLog
  import opened SegmentCatalog
  import opened CompactionCandidates

  /** What a writer is told about a transaction: its result, or only that something went wrong. */
  datatype Outcome = Reported | ErrorAfterCommit | ErrorBeforeCommit

  /** How writing a file ends: unsynced when an error follows after the file has got its final name. */
  datatype Writing = Finished | Unsynced | NotWritten

  datatype Ingest =
    | NoIngest
    | Checked(batch: nat, rows: seq<Row>)
    | Written(batch: nat, rows: seq<Row>, isNew: bool)
    | Rejected(batch: nat, rows: seq<Row>)
    | Unregistered(batch: nat, rows: seq<Row>)

  /** Where the worker is within `compact_once`; the last five hold the write snapshot as noted. */
  datatype Worker =
    | Resting
    | Listed(retired: seq<Path>)
    | Purging(todo: seq<Path>, removed: seq<Path>)
    | Selecting
    | Merging(sources: seq<Segment>, done: nat, content: seq<Row>)
    | Installed(sources: seq<Segment>, isNew: bool)
    | Replacing(sources: seq<Segment>, isNew: bool)
    | Disowned(output: Path, locked: bool)
    | Dropping(output: Path, locked: bool)
    | Retiring(todo: seq<Path>, removed: seq<Path>)

  /** `accepted` and `rewritten` are history: every accepted row in order, the rows of every committed replacement. */
  datatype State = State(
    tables: Tables,
    files: map<Path, seq<Row>>,
    ingest: Ingest,
    worker: Worker,
    readers: map<nat, set<Path>>,
    accepted: seq<Row>,
    rewritten: nat)

  datatype Step =
    | BeginIngest(batch: nat, rows: seq<Row>)
    | WriteBatch(writing: Writing)
    | RegisterBatch(outcome: Outcome)
    | CheckRejected(ok: bool)
    | RemoveUnregistered(ok: bool)
    | FinishRun
    | OpenSnapshot(id: nat)
    | ListForSnapshot(id: nat)
    | CloseSnapshot(id: nat)
    | ListRetired(paths: seq<Path>)
    | LockForPurge
    | RemoveNext(ok: bool)
    | CancelRemoval
    | AcknowledgeRemoved
    | SelectCandidate(sources: seq<Segment>)
    | FindNothing
    | MergeNext
    | InstallOutput(synced: bool)
    | CancelMerge
    | CancelInstalled
    | LockForReplace
    | CancelReplace
    | ReplaceSources(outcome: Outcome)
    | CheckDisowned(ok: bool)
    | RemoveDisowned(ok: bool)
    | Crash

  predicate ValidBatch(rows: seq<Row>) {
    rows != [] && forall i :: 0 < i < |rows| ==> rows[i].sequence == rows[i - 1].sequence + 1
  }

  function SegmentOf(batch: nat, rows: seq<Row>): Segment
    requires rows != []
  {
    Segment(Raw(batch, rows), KeysOf(rows), rows[0].sequence, rows[|rows| - 1].sequence, |rows|)
  }

  function ActivePaths(t: Tables): set<Path> {
    PathSet(Paths(t.segments))
  }

  /** `segment_path_is_registered` */
  predicate IsRegistered(t: Tables, p: Path) {
    p in ActivePaths(t) || p in t.retired
  }

  predicate HoldsWriteLock(w: Worker) {
    w.Purging? || w.Replacing? || w.Retiring? || ((w.Disowned? || w.Dropping?) && w.locked)
  }

  predicate SameSchema(sources: seq<Segment>) {
    forall i :: 0 <= i < |sources| ==> SchemaOf(sources[i].path) == SchemaOf(sources[0].path)
  }

  /** The checks `write_compacted_parquet` makes on what it has copied. */
  predicate Accepts(sources: seq<Segment>, content: seq<Row>)
    requires sources != []
  {
    && SameSchema(sources)
    && (forall i :: 0 <= i < |content| ==> content[i].sequence == sources[0].first + i)
    && |content| == TotalRows(sources)
    && content != [] && content[|content| - 1].sequence == sources[|sources| - 1].last
  }

  predicate Enabled(s: State, a: Step, target: nat) {
    match a
    case BeginIngest(_, rows) => s.ingest.NoIngest? && ValidBatch(rows)
    case WriteBatch(_) => s.ingest.Checked?
    case RegisterBatch(_) => s.ingest.Written? && ValidBatch(s.ingest.rows)
    case CheckRejected(_) => s.ingest.Rejected?
    case RemoveUnregistered(_) => s.ingest.Unregistered?
    case FinishRun => s.ingest.NoIngest?
    case OpenSnapshot(id) => id !in s.readers && !HoldsWriteLock(s.worker)
    case ListForSnapshot(id) => id in s.readers
    case CloseSnapshot(id) => id in s.readers
    case ListRetired(paths) => s.worker.Resting? && PathSet(paths) <= s.tables.retired
    case LockForPurge => s.worker.Listed? && s.readers == map[]
    case RemoveNext(_) => (s.worker.Purging? || s.worker.Retiring?) && s.worker.todo != []
    case CancelRemoval => s.worker.Purging? || s.worker.Retiring?
    case AcknowledgeRemoved => (s.worker.Purging? || s.worker.Retiring?) && s.worker.todo == []
    case SelectCandidate(sources) =>
      && s.worker.Selecting? && MIN_COMPACTION_INPUT_SEGMENTS <= |sources| && Compactable(sources, target)
      && forall i :: 0 <= i < |sources| ==> sources[i] in s.tables.segments
    case FindNothing => s.worker.Selecting?
    case MergeNext => s.worker.Merging? && s.worker.done < |s.worker.sources|
    case InstallOutput(_) => s.worker.Merging? && s.worker.done == |s.worker.sources| > 0
    case CancelMerge => s.worker.Merging?
    case CancelInstalled => s.worker.Installed? && s.worker.sources != []
    case LockForReplace => s.worker.Installed? && s.readers == map[]
    case CancelReplace => s.worker.Replacing? && s.worker.sources != []
    case ReplaceSources(_) => s.worker.Replacing? && s.worker.sources != []
    case CheckDisowned(_) => s.worker.Disowned?
    case RemoveDisowned(_) => s.worker.Dropping?
    case Crash => true
  }

  // ---------------------------------------------------------------- steps

  function ApplyIngest(s: State, a: Step, ghost target: nat): State
    requires Enabled(s, a, target)
    requires a.BeginIngest? || a.WriteBatch? || a.RegisterBatch? || a.CheckRejected? || a.RemoveUnregistered?
             || a.FinishRun?
  {
    match a
    case BeginIngest(batch, rows) =>
      if batch in s.tables.batches || !s.tables.running then s else s.(ingest := Checked(batch, rows))
    case WriteBatch(writing) =>
      var Checked(batch, rows) := s.ingest;
      var p := Raw(batch, rows);
      var files := if writing.NotWritten? || p in s.files then s.files else s.files[p := rows];
      s.(files := files, ingest := if writing.Finished? then Written(batch, rows, p !in s.files) else NoIngest)
    case RegisterBatch(outcome) =>
      var Written(batch, rows, isNew) := s.ingest;
      var (tables, r) := Registered(s.tables, batch, rows, SegmentOf(batch, rows));
      var u := if outcome.ErrorBeforeCommit? || r != Ok(Accepted) then s
               else s.(tables := tables, accepted := s.accepted + rows);
      if (r.Ok? && outcome.Reported?) || !isNew then u.(ingest := NoIngest)
      else u.(ingest := Rejected(batch, rows))
    case CheckRejected(ok) =>
      if ok && !IsRegistered(s.tables, Raw(s.ingest.batch, s.ingest.rows))
      then s.(ingest := Unregistered(s.ingest.batch, s.ingest.rows))
      else s.(ingest := NoIngest)
    case RemoveUnregistered(ok) =>
      var p := Raw(s.ingest.batch, s.ingest.rows);
      s.(files := if ok then s.files - {p} else s.files, ingest := NoIngest)
    case FinishRun => s.(tables := s.tables.(running := false))
  }

  function ApplySnapshot(s: State, a: Step, ghost target: nat): State
    requires Enabled(s, a, target) && (a.OpenSnapshot? || a.ListForSnapshot? || a.CloseSnapshot?)
  {
    match a
    case OpenSnapshot(id) => s.(readers := s.readers[id := {}])
    case ListForSnapshot(id) => s.(readers := s.readers[id := s.readers[id] + ActivePaths(s.tables)])
    case CloseSnapshot(id) => s.(readers := s.readers - {id})
  }

  function ApplyRemoval(s: State, a: Step, ghost target: nat): State
    requires Enabled(s, a, target)
    requires a.ListRetired? || a.LockForPurge? || a.RemoveNext? || a.CancelRemoval? || a.AcknowledgeRemoved?
  {
    match a
    case ListRetired(paths) => s.(worker := if paths == [] then Selecting else Listed(paths))
    case LockForPurge => s.(worker := Purging(s.worker.retired, []))
    case RemoveNext(ok) =>
      var p := s.worker.todo[0];
      var left := s.worker.(todo := s.worker.todo[1..]);
      if ok then s.(files := s.files - {p}, worker := left.(removed := left.removed + [p])) else s.(worker := left)
    case CancelRemoval => s.(worker := Resting)
    case AcknowledgeRemoved =>
      var removed := s.worker.removed;
      s.(tables := s.tables.(retired := s.tables.retired - PathSet(removed)),
         worker := if s.worker.Purging? && removed == [] then Selecting else Resting)
  }

  function ApplyMerge(s: State, a: Step, ghost target: nat): State
    requires Enabled(s, a, target)
    requires a.SelectCandidate? || a.FindNothing? || a.MergeNext? || a.InstallOutput? || a.CancelMerge?
  {
    match a
    case SelectCandidate(sources) =>
      s.(worker := if Compacted(sources).path in s.files then Installed(sources, false) else Merging(sources, 0, []))
    case FindNothing => s.(worker := Resting)
    case MergeNext =>
      var Merging(sources, done, content) := s.worker;
      if sources[done].path in s.files
      then s.(worker := Merging(sources, done + 1, content + s.files[sources[done].path]))
      else s.(worker := Resting)
    case InstallOutput(synced) =>
      var Merging(sources, _, content) := s.worker;
      var p := Compacted(sources).path;
      if !Accepts(sources, content) then s.(worker := Resting)
      else
        var files := if p in s.files then s.files else s.files[p := content];
        s.(files := files, worker := if synced then Installed(sources, p !in s.files) else Resting)
    case CancelMerge => s.(worker := Resting)
  }

  function Abandon(s: State, locked: bool): State
    requires (s.worker.Installed? || s.worker.Replacing?) && s.worker.sources != []
  {
    s.(worker := if s.worker.isNew then Disowned(Compacted(s.worker.sources).path, locked) else Resting)
  }

  function ApplyReplace(s: State, a: Step, ghost target: nat): State
    requires Enabled(s, a, target)
    requires a.CancelInstalled? || a.LockForReplace? || a.CancelReplace? || a.ReplaceSources? || a.CheckDisowned?
             || a.RemoveDisowned?
  {
    match a
    case CancelInstalled => Abandon(s, false)
    case LockForReplace => s.(worker := Replacing(s.worker.sources, s.worker.isNew))
    case CancelReplace => Abandon(s, true)
    case ReplaceSources(outcome) =>
      var sources := s.worker.sources;
      var (tables, r) := Replaced(s.tables, sources, Compacted(sources));
      var u := if outcome.ErrorBeforeCommit? || r.Err? then s
               else s.(tables := tables, rewritten := s.rewritten + TotalRows(sources));
      if r.Ok? && outcome.Reported? then u.(worker := Retiring(r.value, [])) else Abandon(u, true)
    case CheckDisowned(ok) =>
      var Disowned(output, locked) := s.worker;
      s.(worker := if ok && !IsRegistered(s.tables, output) then Dropping(output, locked) else Resting)
    case RemoveDisowned(ok) => s.(files := if ok then s.files - {s.worker.output} else s.files, worker := Resting)
  }

  /** A crash forgets everything that is not in the catalog or in a file. */
  function Apply(s: State, a: Step, ghost target: nat): State
    requires Enabled(s, a, target)
  {
    match a
    case Crash => s.(ingest := NoIngest, worker := Resting, readers := map[])
    case BeginIngest(_, _) => ApplyIngest(s, a, target)
    case WriteBatch(_) => ApplyIngest(s, a, target)
    case RegisterBatch(_) => ApplyIngest(s, a, target)
    case CheckRejected(_) => ApplyIngest(s, a, target)
    case RemoveUnregistered(_) => ApplyIngest(s, a, target)
    case FinishRun => ApplyIngest(s, a, target)
    case OpenSnapshot(_) => ApplySnapshot(s, a, target)
    case ListForSnapshot(_) => ApplySnapshot(s, a, target)
    case CloseSnapshot(_) => ApplySnapshot(s, a, target)
    case ListRetired(_) => ApplyRemoval(s, a, target)
    case LockForPurge => ApplyRemoval(s, a, target)
    case RemoveNext(_) => ApplyRemoval(s, a, target)
    case CancelRemoval => ApplyRemoval(s, a, target)
    case AcknowledgeRemoved => ApplyRemoval(s, a, target)
    case SelectCandidate(_) => ApplyMerge(s, a, target)
    case FindNothing => ApplyMerge(s, a, target)
    case MergeNext => ApplyMerge(s, a, target)
    case InstallOutput(_) => ApplyMerge(s, a, target)
    case CancelMerge => ApplyMerge(s, a, target)
    case _ => ApplyReplace(s, a, target)
  }
}

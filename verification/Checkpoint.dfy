/**
  Checkpointing the metric preview of a run and rebuilding it after a crash from
  the last durable checkpoint and a bounded journal tail.
 */
module Checkpoint {
  import opened Wrappers
  import opened Preview
  import Spool

  const CHECKPOINT_RECORD_INTERVAL: nat := 128
  const CHECKPOINT_BYTE_INTERVAL: nat := 512 * 1024
  const MAX_TAIL_BYTES: nat := CHECKPOINT_BYTE_INTERVAL + Spool.MAX_RECORD_BYTES + 1

  /** A journal record: its metrics and its framed length, newline included. */
  datatype Record = Record(metrics: Metrics, bytes: nat)

  /** What survives a crash: the journal and the checkpoint kept in `run.json`. */
  datatype Disk = Disk(journal: seq<Record>, values: Metrics, truncated: bool, offset: nat)

  /** The fields of a running client. */
  datatype Live = Live(values: Metrics, truncated: bool, latestOffset: nat, checkpointOffset: nat, tailRecords: nat)

  datatype RecoveryError = OffsetOutside | TailTooLong | NotBounded | Incomplete | SplitsRecord | TooManyRecords

  function Bytes(journal: seq<Record>): nat {
    if journal == [] then 0 else Bytes(journal[..|journal| - 1]) + journal[|journal| - 1].bytes
  }

  function History(journal: seq<Record>): seq<Metrics> {
    seq(|journal|, i requires 0 <= i < |journal| => journal[i].metrics)
  }

  /** Whether a record starts at byte `offset`. */
  ghost predicate IsBoundary(journal: seq<Record>, offset: nat, k: nat) {
    k <= |journal| && Bytes(journal[..k]) == offset
  }

  ghost predicate Framed(journal: seq<Record>) {
    forall i :: 0 <= i < |journal| ==> 0 < journal[i].bytes <= Spool.MAX_RECORD_BYTES + 1
  }

  lemma BytesSnoc(journal: seq<Record>, record: Record)
    ensures Bytes(journal + [record]) == Bytes(journal) + record.bytes
    ensures History(journal + [record]) == History(journal) + [record.metrics]
  {
    assert (journal + [record])[..|journal|] == journal;
  }

  lemma {:induction false} BytesMonotone(journal: seq<Record>, j: nat, k: nat)
    requires Framed(journal) && j <= k <= |journal|
    ensures Bytes(journal[..j]) <= Bytes(journal[..k])
    ensures j < k ==> Bytes(journal[..j]) < Bytes(journal[..k])
    decreases k
  {
    if j < k {
      assert journal[..k] == journal[..k - 1] + [journal[k - 1]];
      BytesSnoc(journal[..k - 1], journal[k - 1]);
      BytesMonotone(journal, j, k - 1);
    }
  }

  // ------------------------------------------------------------- recovery

  /** The preview after replaying `journal` from record `k` on top of a checkpoint. */
  ghost function Replay(p: Preview, journal: seq<Record>, k: nat): Preview
    requires k <= |journal|
    decreases |journal| - k
  {
    if k == |journal| then p else Replay(Updated(p, UserPart(journal[k].metrics)), journal, k + 1)
  }

  /** The checkpoint is at record `k` and neither it nor the tail after it breaks a bound. */
  ghost predicate Recoverable(disk: Disk, k: nat) {
    && Framed(disk.journal) && IsBoundary(disk.journal, disk.offset, k)
    && |disk.journal| - k <= CHECKPOINT_RECORD_INTERVAL
    && Bytes(disk.journal) - disk.offset <= MAX_TAIL_BYTES
    && |disk.values| <= MAX_DERIVED_SUMMARY_KEYS
    && (disk.truncated ==> |disk.values| == MAX_DERIVED_SUMMARY_KEYS)
  }

  /** `recover_summary`: a checkpoint, a bounded tail and the checks between them. */
  method RecoverSummary(disk: Disk) returns (r: Result<Preview, RecoveryError>)
    ensures r.Ok? && Framed(disk.journal) ==> exists k: nat :: Recoverable(disk, k)
    ensures forall k: nat :: Recoverable(disk, k) ==>
              r == Ok(Replay(Preview(disk.values, disk.truncated), disk.journal, k))
  {
    hide Updated, UserPart, Bytes, Framed;
    var size := Bytes(disk.journal);
    if disk.offset > size {
      WholeJournal(disk.journal);
      return Err(OffsetOutside);
    }
    if size - disk.offset > MAX_TAIL_BYTES { return Err(TailTooLong); }
    if |disk.values| > MAX_DERIVED_SUMMARY_KEYS { return Err(NotBounded); }
    if disk.truncated && |disk.values| != MAX_DERIVED_SUMMARY_KEYS { return Err(Incomplete); }
    var start := Seek(disk.journal, disk.offset);
    if start.None? { return Err(SplitsRecord); }
    var k, count := start.value, 0;
    var values, truncated := disk.values, disk.truncated;
    while k < |disk.journal|
      invariant k <= |disk.journal| && count == k - start.value <= CHECKPOINT_RECORD_INTERVAL
      invariant Replay(Preview(values, truncated), disk.journal, k)
                == Replay(Preview(disk.values, disk.truncated), disk.journal, start.value)
    {
      count := count + 1;
      if count > CHECKPOINT_RECORD_INTERVAL { return Err(TooManyRecords); }
      values, truncated := MergeMetricPreview(values, disk.journal[k].metrics, truncated);
      k := k + 1;
    }
    assert Framed(disk.journal) ==> Recoverable(disk, start.value);
    return Ok(Preview(values, truncated));
  }

  lemma WholeJournal(journal: seq<Record>)
    ensures forall k: nat :: Framed(journal) && k <= |journal| ==> Bytes(journal[..k]) <= Bytes(journal)
  {
    forall k: nat | Framed(journal) && k <= |journal|
      ensures Bytes(journal[..k]) <= Bytes(journal)
    {
      BytesMonotone(journal, k, |journal|);
      assert journal[..|journal|] == journal;
    }
  }

  /** The record that starts at a byte offset, if one does. */
  method Seek(journal: seq<Record>, offset: nat) returns (k: Option<nat>)
    ensures k.Some? ==> IsBoundary(journal, offset, k.value)
    ensures forall j: nat :: Framed(journal) && IsBoundary(journal, offset, j) ==> k == Some(j)
  {
    hide Framed;
    var position, i := 0, 0;
    while i < |journal| && position < offset
      invariant i <= |journal| && position == Bytes(journal[..i])
      invariant forall j: nat :: Framed(journal) && IsBoundary(journal, offset, j) ==> i <= j
    {
      assert journal[..i + 1] == journal[..i] + [journal[i]];
      BytesSnoc(journal[..i], journal[i]);
      position := position + journal[i].bytes;
      i := i + 1;
    }
    forall j: nat | Framed(journal) && IsBoundary(journal, offset, j)
      ensures i == j
    {
      BytesMonotone(journal, i, j);
    }
    if position != offset { return None; }
    return Some(i);
  }

  // -------------------------------------------------------- a live client

  function Due(l: Live): bool {
    || l.tailRecords >= CHECKPOINT_RECORD_INTERVAL
    || l.latestOffset - l.checkpointOffset >= CHECKPOINT_BYTE_INTERVAL
  }

  /** A successful checkpoint write. */
  function Saved(d: Disk, l: Live): (Disk, Live) {
    (d.(values := l.values, truncated := l.truncated, offset := l.latestOffset),
     l.(checkpointOffset := l.latestOffset, tailRecords := 0))
  }

  /** The record is journalled and, unless it is a system sample, merged. */
  ghost function Journalled(d: Disk, l: Live, record: Record, summarize: bool): (Disk, Live) {
    var p := if summarize then Updated(Preview(l.values, l.truncated), UserPart(record.metrics))
             else Preview(l.values, l.truncated);
    (d.(journal := d.journal + [record]),
     Live(p.values, p.truncated, Bytes(d.journal + [record]), l.checkpointOffset, l.tailRecords + 1))
  }

  /** `_append_metrics`; the flags say whether a checkpoint write, if attempted, succeeds. */
  ghost function Appended(d: Disk, l: Live, record: Record, summarize: bool, first: bool, second: bool): (Disk, Live) {
    if Due(l) && !first then (d, l)
    else
      var (d1, l1) := if Due(l) then Saved(d, l) else (d, l);
      var (d2, l2) := Journalled(d1, l1, record, summarize);
      if Due(l2) && second then Saved(d2, l2) else (d2, l2)
  }

  /** Whether a checkpoint write failed, before the record was journalled or after. */
  ghost predicate Raises(d: Disk, l: Live, record: Record, summarize: bool, first: bool, second: bool) {
    if Due(l) && !first then true
    else Due(Journalled(if Due(l) then Saved(d, l).0 else d, if Due(l) then Saved(d, l).1 else l, record, summarize).1)
         && !second
  }

  predicate Late(records: nat, bytes: int) {
    records >= CHECKPOINT_RECORD_INTERVAL || bytes >= CHECKPOINT_BYTE_INTERVAL
  }

  /**
    Nothing happens if the checkpoint that is late cannot be written.  Otherwise the record
    joins the journal and the preview, and the last checkpoint written holds the preview of
    the time; an error says that one that was late could not be written.
   */
  ghost predicate IsAppend(d: Disk, l: Live, record: Record, summarize: bool, first: bool, second: bool,
                           after: Disk, live: Live, raised: bool)
  {
    var late := Late(l.tailRecords, l.latestOffset - l.checkpointOffset);
    if late && !first then raised && after == d && live == l
    else
      var start := if late then l.latestOffset else l.checkpointOffset;
      var records := if late then 1 else l.tailRecords + 1;
      var again := Late(records, live.latestOffset - start);
      && after.journal == d.journal + [record] && live.latestOffset == Bytes(after.journal)
      && Preview(live.values, live.truncated)
         == (if summarize then Updated(Preview(l.values, l.truncated), UserPart(record.metrics))
             else Preview(l.values, l.truncated))
      && raised == (again && !second)
      && (if again && second then
            && (after.values, after.truncated, after.offset) == (live.values, live.truncated, live.latestOffset)
            && live.checkpointOffset == live.latestOffset && live.tailRecords == 0
          else
            && (after.values, after.truncated, after.offset)
               == (if late then (l.values, l.truncated, l.latestOffset) else (d.values, d.truncated, d.offset))
            && live.checkpointOffset == start && live.tailRecords == records)
  }

  lemma AppendedIsDeclared(d: Disk, l: Live, record: Record, summarize: bool, first: bool, second: bool)
    ensures var (after, live) := Appended(d, l, record, summarize, first, second);
            IsAppend(d, l, record, summarize, first, second, after, live,
                     Raises(d, l, record, summarize, first, second))
  {
    hide Updated, UserPart, Bytes;
  }

  class RunSummary {
    var journal: seq<Record>
    var storedValues: Metrics
    var storedTruncated: bool
    var storedOffset: nat
    var metricSummary: Metrics
    var summaryTruncated: bool
    var latestEventOffset: nat
    var summaryEventOffset: nat
    var summaryTailRecords: nat

    ghost function OnDisk(): Disk
      reads this
    {
      Disk(journal, storedValues, storedTruncated, storedOffset)
    }

    ghost function InMemory(): Live
      reads this
    {
      Live(metricSummary, summaryTruncated, latestEventOffset, summaryEventOffset, summaryTailRecords)
    }

    /** `writes` says whether replacing `run.json` succeeds. */
    method CheckpointSummary(writes: bool) returns (raised: bool)
      modifies this
      ensures raised == !writes
      ensures writes ==> storedValues == metricSummary && storedTruncated == summaryTruncated
                         && storedOffset == summaryEventOffset == latestEventOffset && summaryTailRecords == 0
      ensures (OnDisk(), InMemory())
              == if writes then Saved(old(OnDisk()), old(InMemory())) else (old(OnDisk()), old(InMemory()))
    {
      if !writes { return true; }
      storedValues, storedTruncated, storedOffset := metricSummary, summaryTruncated, latestEventOffset;
      summaryEventOffset := latestEventOffset;
      summaryTailRecords := 0;
      return false;
    }

    method CheckpointDue() returns (due: bool)
      ensures due == Due(InMemory())
      ensures due <==> || summaryTailRecords >= CHECKPOINT_RECORD_INTERVAL
                       || latestEventOffset - summaryEventOffset >= CHECKPOINT_BYTE_INTERVAL
    {
      return summaryTailRecords >= CHECKPOINT_RECORD_INTERVAL
          || latestEventOffset - summaryEventOffset >= CHECKPOINT_BYTE_INTERVAL;
    }

    method AppendMetrics(record: Record, summarize: bool, first: bool, second: bool) returns (raised: bool)
      modifies this
      ensures (OnDisk(), InMemory()) == Appended(old(OnDisk()), old(InMemory()), record, summarize, first, second)
      ensures raised == Raises(old(OnDisk()), old(InMemory()), record, summarize, first, second)
      ensures IsAppend(old(OnDisk()), old(InMemory()), record, summarize, first, second, OnDisk(), InMemory(), raised)
    {
      hide Updated, UserPart, Bytes, IsAppend;
      AppendedIsDeclared(OnDisk(), InMemory(), record, summarize, first, second);
      raised := false;
      var due := CheckpointDue();
      if due {
        raised := CheckpointSummary(first);
        if raised { return; }
      }
      journal := journal + [record];
      latestEventOffset := Bytes(journal);
      summaryTailRecords := summaryTailRecords + 1;
      if summarize {
        metricSummary, summaryTruncated := MergeMetricPreview(metricSummary, record.metrics, summaryTruncated);
      }
      due := CheckpointDue();
      if due { raised := CheckpointSummary(second); }
    }
  }

  // ---------------------------------------------------------- whole runs

  /** `met` is history: whether the client has ever merged the server's preview into its own. */
  datatype State = State(disk: Disk, live: Option<Live>, met: bool)

  datatype Step =
    | Log(record: Record, summarize: bool, first: bool, second: bool)
    | LogThenCrash(record: Record, summarize: bool, first: bool)
    | Save(writes: bool)
    | Crash
    | Reopen(writes: bool)
    | MergeServer(registered: nat, writes: bool)

  /** System samples are the records that are not merged; their keys carry the prefix. */
  ghost predicate Legal(step: Step) {
    (step.Log? || step.LogThenCrash?) ==>
      && 0 < step.record.bytes <= Spool.MAX_RECORD_BYTES + 1
      && (!step.summarize ==> forall k :: k in step.record.metrics ==> IsSystem(k))
  }

  /** The in-memory fields right after a successful `recover_summary`. */
  ghost function Reopened(d: Disk): Option<Live> {
    if exists k: nat :: Recoverable(d, k) then
      var k: nat :| Recoverable(d, k);
      var p := Replay(Preview(d.values, d.truncated), d.journal, k);
      Some(Live(p.values, p.truncated, Bytes(d.journal), Bytes(d.journal), 0))
    else None
  }

  /** The client's preview merged with the server's: of what it held before this journal and the first `n` records. */
  ghost function MergedWithServer(base: seq<Metrics>, d: Disk, l: Live, n: nat): Live
    requires n <= |d.journal|
  {
    var server := PreviewOf(base + History(d.journal[..n]));
    var p := Updated(Preview(server.values, server.truncated || l.truncated), UserPart(l.values));
    l.(values := p.values, truncated := p.truncated)
  }

  ghost function Apply(base: seq<Metrics>, s: State, step: Step): State {
    match step
    case Log(record, summarize, first, second) =>
      if s.live.None? then s else
        var (d, l) := Appended(s.disk, s.live.value, record, summarize, first, second);
        s.(disk := d, live := Some(l))
    case LogThenCrash(record, summarize, first) =>
      if s.live.None? then s
      else s.(disk := Appended(s.disk, s.live.value, record, summarize, first, false).0, live := None)
    case Save(writes) =>
      if s.live.None? || !writes then s else var (d, l) := Saved(s.disk, s.live.value); s.(disk := d, live := Some(l))
    case Crash => s.(live := None)
    case Reopen(writes) =>
      if s.live.Some? || Reopened(s.disk).None? then s
      else if !writes then s
      else var (d, l) := Saved(s.disk, Reopened(s.disk).value); s.(disk := d, live := Some(l))
    case MergeServer(n, writes) =>
      if s.live.None? || n > |s.disk.journal| || !writes then s
      else var (d, l) := Saved(s.disk, MergedWithServer(base, s.disk, s.live.value, n)); State(d, Some(l), true)
  }

  /** `base` is what the server held before this journal was begun. */
  ghost function Run(base: seq<Metrics>, s: State, steps: seq<Step>): State {
    if steps == [] then s else Apply(base, Run(base, s, steps[..|steps| - 1]), steps[|steps| - 1])
  }

  const FRESH: State := State(Disk([], map[], false, 0), None, false)

  /** Everything the client's preview is about. */
  function Known(base: seq<Metrics>, met: bool): seq<Metrics> {
    if met then base else []
  }

  // ----------------------------------------------------------- invariant

  /** The checkpoint is the exact preview of the first `c` records, with a bounded tail after it. */
  ghost predicate DiskOk(prior: seq<Metrics>, d: Disk, c: nat) {
    && Framed(d.journal) && IsBoundary(d.journal, d.offset, c)
    && Preview(d.values, d.truncated) == PreviewOf(prior + History(d.journal[..c]))
    && |d.journal| - c <= CHECKPOINT_RECORD_INTERVAL
    && Bytes(d.journal) - d.offset <= MAX_TAIL_BYTES
  }

  ghost predicate LiveOk(prior: seq<Metrics>, d: Disk, l: Live, c: nat) {
    && Preview(l.values, l.truncated) == PreviewOf(prior + History(d.journal))
    && l.latestOffset == Bytes(d.journal) && l.checkpointOffset == d.offset
    && l.tailRecords == |d.journal| - c
  }

  ghost predicate Inv(base: seq<Metrics>, s: State, c: nat) {
    && DiskOk(Known(base, s.met), s.disk, c)
    && (s.live.Some? ==> LiveOk(Known(base, s.met), s.disk, s.live.value, c))
  }

  lemma HistoryPrefix(journal: seq<Record>, k: nat)
    requires k < |journal|
    ensures History(journal[..k + 1]) == History(journal[..k]) + [journal[k].metrics]
  {
  }

  lemma {:induction false} ReplayIsExact(prior: seq<Metrics>, journal: seq<Record>, k: nat)
    requires k <= |journal|
    ensures Replay(PreviewOf(prior + History(journal[..k])), journal, k) == PreviewOf(prior + History(journal))
    decreases |journal| - k
  {
    hide PreviewOf, Updated, UserPart;
    if k == |journal| {
      assert journal[..k] == journal;
    } else {
      HistoryPrefix(journal, k);
      MergingPointsIsExact(prior + History(journal[..k]), journal[k].metrics);
      assert prior + History(journal[..k]) + [journal[k].metrics] == prior + History(journal[..k + 1]);
      ReplayIsExact(prior, journal, k + 1);
    }
  }

  lemma DiskIsRecoverable(prior: seq<Metrics>, d: Disk, c: nat)
    requires DiskOk(prior, d, c)
    ensures Recoverable(d, c)
  {
    SmallestSize(Latest(prior + History(d.journal[..c])), MAX_DERIVED_SUMMARY_KEYS);
    hide Smallest, Latest;
  }

  lemma BoundaryUnique(journal: seq<Record>, offset: nat, j: nat, k: nat)
    requires Framed(journal) && IsBoundary(journal, offset, j) && IsBoundary(journal, offset, k)
    ensures j == k
  {
    if j < k { BytesMonotone(journal, j, k); }
    if k < j { BytesMonotone(journal, k, j); }
  }

  /** The bound errors never fire, and recovery rebuilds the preview of the whole journal. */
  lemma RecoveryIsExact(prior: seq<Metrics>, d: Disk, c: nat)
    requires DiskOk(prior, d, c)
    ensures var p := PreviewOf(prior + History(d.journal));
            Reopened(d) == Some(Live(p.values, p.truncated, Bytes(d.journal), Bytes(d.journal), 0))
  {
    DiskIsRecoverable(prior, d, c);
    ReplayIsExact(prior, d.journal, c);
    forall k: nat | Recoverable(d, k)
      ensures k == c
    {
      BoundaryUnique(d.journal, d.offset, k, c);
    }
    hide Replay, PreviewOf, Bytes, Framed;
  }

  lemma SavedKeeps(prior: seq<Metrics>, d: Disk, l: Live)
    requires Framed(d.journal) && l.latestOffset == Bytes(d.journal)
    requires Preview(l.values, l.truncated) == PreviewOf(prior + History(d.journal))
    ensures var (d', l') := Saved(d, l);
            DiskOk(prior, d', |d.journal|) && LiveOk(prior, d', l', |d.journal|) && !Due(l') && d'.journal == d.journal
  {
    hide PreviewOf, Bytes, Framed;
    assert d.journal[..|d.journal|] == d.journal;
  }

  lemma JournalledPreview(prior: seq<Metrics>, d: Disk, l: Live, record: Record, summarize: bool)
    requires Preview(l.values, l.truncated) == PreviewOf(prior + History(d.journal))
    requires !summarize ==> forall k :: k in record.metrics ==> IsSystem(k)
    ensures var (d', l') := Journalled(d, l, record, summarize);
            Preview(l'.values, l'.truncated) == PreviewOf(prior + History(d'.journal))
  {
    hide PreviewOf, Updated, UserPart, Bytes, History;
    BytesSnoc(d.journal, record);
    MergingPointsIsExact(prior + History(d.journal), record.metrics);
    if !summarize { SystemPointsAreInvisible(prior + History(d.journal), record.metrics); }
    assert prior + History(d.journal) + [record.metrics] == prior + (History(d.journal) + [record.metrics]);
  }

  lemma JournalledKeeps(prior: seq<Metrics>, d: Disk, l: Live, record: Record, summarize: bool, c: nat)
    requires DiskOk(prior, d, c) && LiveOk(prior, d, l, c) && !Due(l) && Legal(Log(record, summarize, true, true))
    ensures var (d', l') := Journalled(d, l, record, summarize); DiskOk(prior, d', c) && LiveOk(prior, d', l', c)
  {
    hide PreviewOf, Updated, UserPart, Bytes, History;
    BytesSnoc(d.journal, record);
    JournalledPreview(prior, d, l, record, summarize);
    assert (d.journal + [record])[..c] == d.journal[..c];
  }

  lemma AppendedKeeps(prior: seq<Metrics>, d: Disk, l: Live, record: Record, summarize: bool, first: bool,
                      second: bool, c: nat)
    returns (c': nat)
    requires DiskOk(prior, d, c) && LiveOk(prior, d, l, c) && Legal(Log(record, summarize, first, second))
    ensures var (d', l') := Appended(d, l, record, summarize, first, second);
            DiskOk(prior, d', c') && LiveOk(prior, d', l', c')
  {
    hide PreviewOf, Updated, UserPart, Bytes, History, Journalled;
    c' := c;
    if !(Due(l) && !first) {
      var (d1, l1) := if Due(l) then Saved(d, l) else (d, l);
      if Due(l) {
        SavedKeeps(prior, d, l);
        c' := |d.journal|;
      }
      JournalledKeeps(prior, d1, l1, record, summarize, c');
      var (d2, l2) := Journalled(d1, l1, record, summarize);
      if Due(l2) && second {
        SavedKeeps(prior, d2, l2);
        c' := |d2.journal|;
      }
    }
  }

  lemma HistorySplits(journal: seq<Record>, n: nat)
    requires n <= |journal|
    ensures History(journal) == History(journal[..n]) + History(journal[n..])
  {
  }

  /** Merging the server's preview makes the client's cover everything, and is idempotent. */
  lemma MergedWithServerCovers(base: seq<Metrics>, met: bool, d: Disk, l: Live, n: nat)
    requires Preview(l.values, l.truncated) == PreviewOf(Known(base, met) + History(d.journal)) && n <= |d.journal|
    ensures var m := MergedWithServer(base, d, l, n);
            && Preview(m.values, m.truncated) == PreviewOf(base + History(d.journal))
            && m.latestOffset == l.latestOffset && (met ==> m == l)
  {
    hide PreviewOf, Updated, UserPart, Bytes;
    HistorySplits(d.journal, n);
    EarlierPreviewIsAbsorbed(base, History(d.journal[..n]), History(d.journal[n..]), met);
    hide History;
  }

  lemma StepKeeps(base: seq<Metrics>, s: State, step: Step, c: nat) returns (c': nat)
    requires Inv(base, s, c) && Legal(step)
    ensures Inv(base, Apply(base, s, step), c')
  {
    hide Appended, Saved, MergedWithServer, Reopened, PreviewOf, Bytes, Framed, History, Known;
    var prior := Known(base, s.met);
    c' := c;
    match step {
      case Log(record, summarize, first, second) =>
        if s.live.Some? { c' := AppendedKeeps(prior, s.disk, s.live.value, record, summarize, first, second, c); }
      case LogThenCrash(record, summarize, first) =>
        if s.live.Some? { c' := AppendedKeeps(prior, s.disk, s.live.value, record, summarize, first, false, c); }
      case Save(writes) =>
        if s.live.Some? && writes {
          SavedKeeps(prior, s.disk, s.live.value);
          c' := |s.disk.journal|;
        }
      case Crash =>
      case Reopen(writes) =>
        if s.live.None? && writes {
          RecoveryIsExact(prior, s.disk, c);
          SavedKeeps(prior, s.disk, Reopened(s.disk).value);
          c' := |s.disk.journal|;
        }
      case MergeServer(n, writes) =>
        if s.live.Some? && n <= |s.disk.journal| && writes {
          MergedWithServerCovers(base, s.met, s.disk, s.live.value, n);
          KnownOnceMet(base);
          SavedKeeps(base, s.disk, MergedWithServer(base, s.disk, s.live.value, n));
          c' := |s.disk.journal|;
        }
    }
  }

  lemma KnownOnceMet(base: seq<Metrics>)
    ensures Known(base, true) == base
  {
  }

  lemma {:induction false} RunKeeps(base: seq<Metrics>, steps: seq<Step>) returns (c: nat)
    requires forall i :: 0 <= i < |steps| ==> Legal(steps[i])
    ensures Inv(base, Run(base, FRESH, steps), c)
    decreases |steps|
  {
    if steps == [] {
      c := 0;
      assert PreviewOf([]) == Preview(map[], false);
      assert [] + History([]) == [];
    } else {
      var before := steps[..|steps| - 1];
      c := RunKeeps(base, before);
      c := StepKeeps(base, Run(base, FRESH, before), steps[|steps| - 1], c);
    }
  }

  /**
    After any run, crashes and failed checkpoint writes included: recovery succeeds and
    rebuilds exactly what a live client holds, the preview of the whole journal, preceded,
    once the server has been asked, by all it held before this journal.
   */
  lemma RecoveryEqualsLiveState(base: seq<Metrics>, steps: seq<Step>)
    requires forall i :: 0 <= i < |steps| ==> Legal(steps[i])
    ensures var s := Run(base, FRESH, steps);
            var p := PreviewOf(Known(base, s.met) + History(s.disk.journal));
            && Reopened(s.disk).Some?
            && Preview(Reopened(s.disk).value.values, Reopened(s.disk).value.truncated) == p
            && (s.live.Some? ==> Preview(s.live.value.values, s.live.value.truncated) == p)
  {
    hide *;
    var c := RunKeeps(base, steps);
    RecoveredState(base, Run(base, FRESH, steps), c);
  }

  lemma RecoveredState(base: seq<Metrics>, s: State, c: nat)
    requires Inv(base, s, c)
    ensures var p := PreviewOf(Known(base, s.met) + History(s.disk.journal));
            && Reopened(s.disk).Some?
            && Preview(Reopened(s.disk).value.values, Reopened(s.disk).value.truncated) == p
            && (s.live.Some? ==> Preview(s.live.value.values, s.live.value.truncated) == p)
  {
    hide Reopened, PreviewOf, History, Bytes, Framed, Known;
    RecoveryIsExact(Known(base, s.met), s.disk, c);
  }

  /** The tail a recovery has to replay is bounded in every reachable state. */
  lemma TailIsBounded(base: seq<Metrics>, steps: seq<Step>) returns (c: nat)
    requires forall i :: 0 <= i < |steps| ==> Legal(steps[i])
    ensures var d := Run(base, FRESH, steps).disk;
            && IsBoundary(d.journal, d.offset, c)
            && |d.journal| - c <= CHECKPOINT_RECORD_INTERVAL
            && Bytes(d.journal) - d.offset <= MAX_TAIL_BYTES
  {
    c := RunKeeps(base, steps);
  }
}

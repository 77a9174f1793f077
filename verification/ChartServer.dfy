/**
  The chart query with its two caches, run against catalogs that everything else keeps
  changing: at every point where a query gives up control, any steps of ingest, of other
  readers and of compaction happen on any run, and other queries read and fill the same
  caches, as an arbitrary schedule says.
 */
module ChartServer {
  import opened Wrappers
  import opened MetricLog
  import opened SegmentCatalog
  import opened CatalogStore
  import opened PagedReads
  import Compaction
  import CompactionSafety
  import CompactionTheorems
  import opened ChartSampler
  import opened ChartHistory
  import opened ChartProjection
  import opened ChartQuery
  import opened ChartMeaning
  import opened LruCache

  datatype ExtentKey = ExtentKey(run: nat, key: string, first: nat, last: nat)

  /** The key of a cached series names the watermark but not the first sequence. */
  datatype SeriesKey = SeriesKey(
    run: nat, key: string, last: nat, alignment: Alignment, origin: ChartCoordinate,
    xMin: nat, xMax: nat, maxBuckets: nat)

  /** One row group of a segment file. */
  datatype Block = Block(rows: seq<Row>, statistics: Statistics)

  /** What else happens: steps of ingest, readers and compaction on a run, and the cache accesses of other queries. */
  datatype Event =
    | CreateRun(run: nat)
    | Happens(run: nat, step: Compaction.Step)
    | UseExtent(extentKey: ExtentKey)
    | FillExtent(extentKey: ExtentKey)
    | UseSeries(seriesKey: SeriesKey)
    | FillSeries(seriesKey: SeriesKey)

  // ---------------------------------------------------------------- soundness

  function LogIn(segments: map<nat, seq<Segment>>, run: nat): seq<Row> {
    if run in segments then LogOf(segments[run]) else []
  }

  function SpecOf(k: SeriesKey, first: nat): ChartSpec {
    ChartSpec(first, k.last, k.origin, k.xMin, k.xMax, k.maxBuckets)
  }

  /** The watermark lies in the log, so that no later row can matter. */
  predicate Covers(rows: seq<Row>, last: nat) {
    rows != [] && First(rows) <= last <= Last(rows)
  }

  ghost predicate ExtentSound(k: ExtentKey, e: Option<AxisExtent>, rows: seq<Row>) {
    Covers(rows, k.last) && k.first == First(rows) && e == KeyExtent(rows, k.key, k.first, k.last)
  }

  /** The stored series is the uncached one, taking the run's one and only first sequence. */
  ghost predicate SeriesSound(k: SeriesKey, h: ChartMetricHistory, rows: seq<Row>) {
    Covers(rows, k.last) && ValidSpec(SpecOf(k, First(rows))) && h == KeySeries(rows, k.key, SpecOf(k, First(rows)))
  }

  ghost predicate AllTiled(segments: map<nat, seq<Segment>>) {
    forall run :: run in segments ==> Tiled(segments[run])
  }

  ghost predicate ExtentsSound(entries: map<ExtentKey, Entry<Option<AxisExtent>>>, segments: map<nat, seq<Segment>>) {
    forall k :: k in entries ==> ExtentSound(k, entries[k].value, LogIn(segments, k.run))
  }

  ghost predicate SeriesAllSound(entries: map<SeriesKey, Entry<ChartMetricHistory>>, segments: map<nat, seq<Segment>>) {
    forall k :: k in entries ==> SeriesSound(k, entries[k].value, LogIn(segments, k.run))
  }

  /** Runs only gain segments at their ends. */
  ghost predicate Grew(before: map<nat, seq<Segment>>, after: map<nat, seq<Segment>>) {
    forall run :: run in before ==> run in after && before[run] <= after[run]
  }

  lemma ExtentParts(k: ExtentKey, e: Option<AxisExtent>, rows: seq<Row>)
    requires ExtentSound(k, e, rows)
    ensures rows != [] && First(rows) <= k.last <= Last(rows) && k.first == First(rows)
    ensures e == KeyExtent(rows, k.key, k.first, k.last)
  {
  }

  lemma IsExtentSound(k: ExtentKey, rows: seq<Row>)
    requires rows != [] && First(rows) <= k.last <= Last(rows) && k.first == First(rows)
    ensures ExtentSound(k, KeyExtent(rows, k.key, k.first, k.last), rows)
  {
  }

  lemma SeriesParts(k: SeriesKey, h: ChartMetricHistory, rows: seq<Row>)
    requires SeriesSound(k, h, rows)
    ensures rows != [] && First(rows) <= k.last <= Last(rows)
    ensures ValidSpec(SpecOf(k, First(rows))) && h == KeySeries(rows, k.key, SpecOf(k, First(rows)))
  {
  }

  lemma IsSeriesSound(k: SeriesKey, rows: seq<Row>)
    requires rows != [] && First(rows) <= k.last <= Last(rows) && ValidSpec(SpecOf(k, First(rows)))
    ensures SeriesSound(k, KeySeries(rows, k.key, SpecOf(k, First(rows))), rows)
  {
  }

  lemma GrewReflexive(segments: map<nat, seq<Segment>>)
    ensures Grew(segments, segments)
  {
  }

  lemma GrewRun(before: map<nat, seq<Segment>>, after: map<nat, seq<Segment>>, run: nat)
    requires Grew(before, after) && run in before
    ensures run in after && before[run] <= after[run]
  {
  }

  lemma GrewTransitive(a: map<nat, seq<Segment>>, b: map<nat, seq<Segment>>, c: map<nat, seq<Segment>>)
    requires Grew(a, b) && Grew(b, c)
    ensures Grew(a, c)
  {
  }

  /** A non-empty log keeps its first row, and what it gains lies past everything it had. */
  lemma LogGrows(before: seq<Segment>, after: seq<Segment>) returns (extra: seq<Row>)
    requires Tiled(after) && before <= after
    ensures LogOf(after) == LogOf(before) + extra
    ensures before != [] ==>
              LogOf(before) != [] && Beyond(extra, Last(LogOf(before))) && First(LogOf(before)) <= Last(LogOf(before))
    ensures before != [] ==> First(LogOf(before)) == before[0].first && Last(LogOf(before)) == before[|before| - 1].last
  {
    hide *;
    assert after == before + after[|before|..];
    LogConcat(before, after[|before|..]);
    extra := LogOf(after[|before|..]);
    if before != [] {
      var n, m := |before|, |after| - |before|;
      assert after[n..] == after[n..n + m] && before[n - 1] == after[n - 1];
      LaterRows(after, n, m);
      TiledPrefix(before, after);
      EndsOfLog(before);
      IsBeyond(extra, Last(LogOf(before)));
    }
  }

  lemma IsBeyond(rows: seq<Row>, last: nat)
    requires forall i :: 0 <= i < |rows| ==> last < rows[i].sequence
    ensures Beyond(rows, last)
  {
  }

  lemma EndsOfLog(segments: seq<Segment>)
    requires Tiled(segments) && segments != []
    ensures var rows := LogOf(segments);
            rows != [] && First(rows) == segments[0].first && Last(rows) == segments[|segments| - 1].last
              && First(rows) <= Last(rows)
  {
    hide LogOf, Tiled;
    TiledLogIsConsecutive(segments);
  }

  lemma BeyondWatermark(rows: seq<Row>, extra: seq<Row>, last: nat)
    requires rows != [] && last <= Last(rows) && Beyond(extra, Last(rows))
    ensures Beyond(extra, last)
  {
  }

  lemma ExtentStaysSound(k: ExtentKey, e: Option<AxisExtent>, rows: seq<Row>, extra: seq<Row>)
    requires ExtentSound(k, e, rows) && Beyond(extra, Last(rows)) && First(rows) <= Last(rows)
    ensures ExtentSound(k, e, rows + extra)
  {
    hide KeyExtent;
    BeyondWatermark(rows, extra, k.last);
    ExtentIgnoresLater(rows, extra, k.key, k.first, k.last);
    LastOfConcat(rows, extra);
  }

  lemma SeriesStaysSound(k: SeriesKey, h: ChartMetricHistory, rows: seq<Row>, extra: seq<Row>)
    requires SeriesSound(k, h, rows) && Beyond(extra, Last(rows)) && First(rows) <= Last(rows)
    ensures SeriesSound(k, h, rows + extra)
  {
    hide KeySeries;
    BeyondWatermark(rows, extra, k.last);
    SeriesIgnoresLater(rows, extra, k.key, SpecOf(k, First(rows)));
    LastOfConcat(rows, extra);
  }

  lemma LastOfConcat(rows: seq<Row>, extra: seq<Row>)
    requires rows != [] && Beyond(extra, Last(rows))
    ensures First(rows + extra) == First(rows) && Last(rows) <= Last(rows + extra)
  {
  }

  /** No run ever loses a row. */
  ghost predicate LogsGrew(before: map<nat, seq<Segment>>, after: map<nat, seq<Segment>>) {
    forall run :: LogIn(before, run) <= LogIn(after, run)
  }

  lemma LogsGrewReflexive(segments: map<nat, seq<Segment>>)
    ensures LogsGrew(segments, segments)
  {
    hide LogOf;
  }

  lemma LogsGrewTransitive(a: map<nat, seq<Segment>>, b: map<nat, seq<Segment>>, c: map<nat, seq<Segment>>)
    requires LogsGrew(a, b) && LogsGrew(b, c)
    ensures LogsGrew(a, c)
  {
    hide LogOf, LogIn;
    forall run
      ensures LogIn(a, run) <= LogIn(c, run)
    {
      assert LogIn(a, run) <= LogIn(b, run) && LogIn(b, run) <= LogIn(c, run);
    }
  }

  /** What a non-empty log gains lies past everything it had, in whatever files the rows are now. */
  lemma LogGains(before: map<nat, seq<Segment>>, after: map<nat, seq<Segment>>, run: nat) returns (extra: seq<Row>)
    requires AllTiled(before) && AllTiled(after) && LogsGrew(before, after) && LogIn(before, run) != []
    ensures LogIn(after, run) == LogIn(before, run) + extra && Beyond(extra, Last(LogIn(before, run)))
    ensures First(LogIn(before, run)) <= Last(LogIn(before, run))
  {
    hide LogOf, Tiled, Beyond;
    NonEmptyRun(before, run);
    assert LogIn(before, run) <= LogIn(after, run);
    NonEmptyRun(after, run);
    EndsOfLog(before[run]);
    LogIsAscending(after[run]);
    extra := LogIn(after, run)[|LogIn(before, run)|..];
    AscendingBeyond(LogIn(before, run), LogIn(after, run), extra);
  }

  lemma AscendingBeyond(rows: seq<Row>, more: seq<Row>, extra: seq<Row>)
    requires rows != [] && more == rows + extra && Ascending(more)
    ensures Beyond(extra, Last(rows))
  {
    forall i | 0 <= i < |extra|
      ensures Last(rows) < extra[i].sequence
    {
      assert more[|rows| - 1] == rows[|rows| - 1] && more[|rows| + i] == extra[i];
    }
  }

  /** Neither ingest nor compaction ever invalidates a cached value. */
  lemma CachesStaySound(
      extents: map<ExtentKey, Entry<Option<AxisExtent>>>, series: map<SeriesKey, Entry<ChartMetricHistory>>,
      before: map<nat, seq<Segment>>, after: map<nat, seq<Segment>>)
    requires ExtentsSound(extents, before) && SeriesAllSound(series, before)
    requires AllTiled(before) && AllTiled(after) && LogsGrew(before, after)
    ensures ExtentsSound(extents, after) && SeriesAllSound(series, after)
  {
    hide AllTiled, LogOf, LogIn, ExtentSound, SeriesSound, LogsGrew;
    forall k | k in extents
      ensures ExtentSound(k, extents[k].value, LogIn(after, k.run))
    {
      assert ExtentSound(k, extents[k].value, LogIn(before, k.run));
      ExtentParts(k, extents[k].value, LogIn(before, k.run));
      var extra := LogGains(before, after, k.run);
      ExtentStaysSound(k, extents[k].value, LogIn(before, k.run), extra);
    }
    forall k | k in series
      ensures SeriesSound(k, series[k].value, LogIn(after, k.run))
    {
      assert SeriesSound(k, series[k].value, LogIn(before, k.run));
      SeriesParts(k, series[k].value, LogIn(before, k.run));
      var extra := LogGains(before, after, k.run);
      SeriesStaysSound(k, series[k].value, LogIn(before, k.run), extra);
    }
  }

  lemma NonEmptyRun(segments: map<nat, seq<Segment>>, run: nat)
    requires LogIn(segments, run) != []
    ensures run in segments && segments[run] != []
  {
  }

  // ------------------------------------------------------------------ files

  function BlockRows(blocks: seq<Block>): seq<Row> {
    if blocks == [] then [] else BlockRows(blocks[..|blocks| - 1]) + blocks[|blocks| - 1].rows
  }

  ghost predicate BlockTrue(b: Block) {
    forall i :: 0 <= i < |b.rows| ==> TrueOf(b.statistics, b.rows[i].step)
  }

  /** The row groups of a file hold its rows, under truthful statistics. */
  ghost predicate LayoutTrue(p: Path, blocks: seq<Block>) {
    BlockRows(blocks) == RowsOf(p) && forall i :: 0 <= i < |blocks| ==> BlockTrue(blocks[i])
  }

  function Groups(blocks: seq<Block>, keys: seq<string>): (groups: seq<RowGroup>)
    ensures |groups| == |blocks|
    ensures forall i :: 0 <= i < |blocks| ==> groups[i] == RowGroup(Project(blocks[i].rows, keys), blocks[i].statistics)
  {
    seq(|blocks|, i requires 0 <= i < |blocks| => RowGroup(Project(blocks[i].rows, keys), blocks[i].statistics))
  }

  lemma GroupsAreTrue(blocks: seq<Block>, keys: seq<string>)
    requires forall i :: 0 <= i < |blocks| ==> BlockTrue(blocks[i])
    ensures forall i :: 0 <= i < |blocks| ==>
              Truthful(Groups(blocks, keys)[i]) && GroupShaped(Groups(blocks, keys)[i], |keys|)
  {
    forall i | 0 <= i < |blocks|
      ensures Truthful(Groups(blocks, keys)[i]) && GroupShaped(Groups(blocks, keys)[i], |keys|)
    {
      GroupIsTrue(blocks[i], keys);
    }
  }

  lemma GroupIsTrue(b: Block, keys: seq<string>)
    requires BlockTrue(b)
    ensures var g := RowGroup(Project(b.rows, keys), b.statistics); Truthful(g) && GroupShaped(g, |keys|)
  {
    var samples := Project(b.rows, keys);
    forall i | 0 <= i < |samples|
      ensures samples[i].step == b.rows[i].step
    {
      assert samples[i] == ProjectRow(b.rows[i], keys);
    }
  }

  lemma {:induction false} RowsOfTheGroups(blocks: seq<Block>, keys: seq<string>)
    ensures RowsOfGroups(Groups(blocks, keys)) == Project(BlockRows(blocks), keys)
    decreases |blocks|
  {
    hide ProjectRow;
    if blocks != [] {
      var n := |blocks| - 1;
      assert Groups(blocks, keys)[..n] == Groups(blocks[..n], keys);
      RowsOfTheGroups(blocks[..n], keys);
      ProjectSplit(BlockRows(blocks[..n]), blocks[n].rows, keys);
    }
  }

  // ------------------------------------------------------------- cache steps

  lemma TouchKeepsExtents(entries: map<ExtentKey, Entry<Option<AxisExtent>>>, segments: map<nat, seq<Segment>>,
                       key: ExtentKey, clock: nat)
    requires ExtentsSound(entries, segments)
    ensures ExtentsSound(Touched(entries, key, clock), segments)
  {
    hide ExtentSound;
  }

  lemma TouchKeepsSeries(entries: map<SeriesKey, Entry<ChartMetricHistory>>, segments: map<nat, seq<Segment>>,
                      key: SeriesKey, clock: nat)
    requires SeriesAllSound(entries, segments)
    ensures SeriesAllSound(Touched(entries, key, clock), segments)
  {
    hide SeriesSound;
  }

  lemma StoreKeepsExtents(entries: map<ExtentKey, Entry<Option<AxisExtent>>>, segments: map<nat, seq<Segment>>,
                          key: ExtentKey, e: Entry<Option<AxisExtent>>, evicted: seq<ExtentKey>)
    requires ExtentsSound(entries, segments) && ExtentSound(key, e.value, LogIn(segments, key.run))
    ensures ExtentsSound(Without(entries[key := e], evicted), segments)
  {
    hide ExtentSound, Without;
    WithoutShrinks(entries[key := e], evicted);
  }

  lemma StoreKeepsSeries(entries: map<SeriesKey, Entry<ChartMetricHistory>>, segments: map<nat, seq<Segment>>,
                         key: SeriesKey, e: Entry<ChartMetricHistory>, evicted: seq<SeriesKey>)
    requires SeriesAllSound(entries, segments) && SeriesSound(key, e.value, LogIn(segments, key.run))
    ensures SeriesAllSound(Without(entries[key := e], evicted), segments)
  {
    hide SeriesSound, Without;
    WithoutShrinks(entries[key := e], evicted);
  }

  // ---------------------------------------------------------------- catalogs

  /** The id under which the query in hand reads. */
  const QUERY: nat := 0

  /** The active segments of every run. */
  function SegmentsOf(catalogs: map<nat, Compaction.State>): map<nat, seq<Segment>> {
    map run | run in catalogs :: catalogs[run].tables.segments
  }

  ghost predicate Reached(catalogs: map<nat, Compaction.State>, target: nat) {
    forall run :: run in catalogs ==> CompactionSafety.Inv(catalogs[run], target)
  }

  /** The snapshot lock is one for all runs: the query reads every run, or none. */
  ghost predicate ReadsAll(catalogs: map<nat, Compaction.State>, held: bool) {
    forall run :: run in catalogs ==> (QUERY in catalogs[run].readers <==> held)
  }

  /** Steps that are the query's own to make; a process that dies ends its queries. */
  predicate Foreign(step: Compaction.Step, held: bool) {
    && step != Compaction.OpenSnapshot(QUERY) && step != Compaction.CloseSnapshot(QUERY)
    && (held ==> step != Compaction.Crash)
  }

  lemma ReachedIsTiled(catalogs: map<nat, Compaction.State>, target: nat)
    requires Reached(catalogs, target)
    ensures AllTiled(SegmentsOf(catalogs))
  {
    forall run | run in catalogs
      ensures Tiled(catalogs[run].tables.segments)
    {
      assert CompactionSafety.Inv(catalogs[run], target);
      TablesOf(catalogs[run], target);
    }
  }

  lemma TablesOf(s: Compaction.State, target: nat)
    requires CompactionSafety.Inv(s, target)
    ensures Tiled(s.tables.segments) && LogOf(s.tables.segments) == s.accepted
  {
    hide Tiled, LogOf, CompactionSafety.FilesSound, CompactionSafety.ReadersSound, CompactionSafety.IngestSound,
         CompactionSafety.WorkerSound;
  }

  /** One step on one run: no log loses a row, and under the query's snapshot segments are only appended. */
  lemma StepOnRun(catalogs: map<nat, Compaction.State>, held: bool, run: nat, step: Compaction.Step, target: nat)
    requires Reached(catalogs, target) && ReadsAll(catalogs, held) && run in catalogs
    requires Compaction.Enabled(catalogs[run], step, target) && Foreign(step, held)
    ensures var after := catalogs[run := Compaction.Apply(catalogs[run], step, target)];
            && Reached(after, target) && ReadsAll(after, held)
            && LogsGrew(SegmentsOf(catalogs), SegmentsOf(after))
            && (held ==> Grew(SegmentsOf(catalogs), SegmentsOf(after)))
  {
    hide CompactionSafety.Inv, Compaction.Enabled, Compaction.Apply, LogOf, Tiled, Foreign;
    var s := catalogs[run];
    var u := Compaction.Apply(s, step, target);
    assert CompactionSafety.Inv(s, target);
    CompactionSafety.StepKeeps(s, step, target);
    TablesOf(s, target);
    TablesOf(u, target);
    ForeignKeepsReader(s, step, held, target);
    if held { CompactionTheorems.StepAppends(s, step, target, QUERY); }
    var before, after := SegmentsOf(catalogs), SegmentsOf(catalogs[run := u]);
    forall r
      ensures LogIn(before, r) <= LogIn(after, r)
    {
    }
  }

  lemma ForeignKeepsReader(s: Compaction.State, step: Compaction.Step, held: bool, target: nat)
    requires Compaction.Enabled(s, step, target) && Foreign(step, held) && (QUERY in s.readers <==> held)
    ensures QUERY in Compaction.Apply(s, step, target).readers <==> held
  {
    hide CompactionCandidates.Compactable, Compacted, Replaced, Registered, Compaction.SegmentOf,
         Compaction.IsRegistered, Compaction.Accepts, PathSet, Compaction.ActivePaths, TotalRows,
           Compaction.HoldsWriteLock, Compaction.ValidBatch;
  }

  /** A run that is created while the query reads is read by it, too. */
  function NewRun(held: bool): Compaction.State {
    CompactionSafety.Initial().(readers := if held then map[QUERY := {}] else map[])
  }

  lemma CreateOnRun(catalogs: map<nat, Compaction.State>, held: bool, run: nat, target: nat)
    requires Reached(catalogs, target) && ReadsAll(catalogs, held) && run !in catalogs
    ensures var after := catalogs[run := NewRun(held)];
            && Reached(after, target) && ReadsAll(after, held)
            && LogsGrew(SegmentsOf(catalogs), SegmentsOf(after)) && Grew(SegmentsOf(catalogs), SegmentsOf(after))
  {
    NewRunIsSound(held, target);
    hide CompactionSafety.Inv, LogOf;
    var before, after := SegmentsOf(catalogs), SegmentsOf(catalogs[run := NewRun(held)]);
    forall r
      ensures LogIn(before, r) <= LogIn(after, r)
    {
    }
  }

  lemma NewRunIsSound(held: bool, target: nat)
    ensures CompactionSafety.Inv(NewRun(held), target)
  {
    CompactionTheorems.InitialIsSound(target);
  }

  /** Nobody waits for readers to leave: the read lock can be taken. */
  predicate LockFree(catalogs: map<nat, Compaction.State>) {
    forall run :: run in catalogs ==> !Compaction.HoldsWriteLock(catalogs[run].worker)
  }

  function OpenAll(catalogs: map<nat, Compaction.State>, target: nat): map<nat, Compaction.State>
    requires ReadsAll(catalogs, false) && LockFree(catalogs)
  {
    map run | run in catalogs :: Compaction.Apply(catalogs[run], Compaction.OpenSnapshot(QUERY), target)
  }

  function CloseAll(catalogs: map<nat, Compaction.State>, target: nat): map<nat, Compaction.State>
    requires ReadsAll(catalogs, true)
  {
    map run | run in catalogs :: Compaction.Apply(catalogs[run], Compaction.CloseSnapshot(QUERY), target)
  }

  lemma OpenAllKeeps(catalogs: map<nat, Compaction.State>, target: nat)
    requires Reached(catalogs, target) && ReadsAll(catalogs, false) && LockFree(catalogs)
    ensures var after := OpenAll(catalogs, target);
            Reached(after, target) && ReadsAll(after, true) && SegmentsOf(after) == SegmentsOf(catalogs)
  {
    hide CompactionSafety.Inv;
    forall run | run in catalogs
      ensures CompactionSafety.Inv(OpenAll(catalogs, target)[run], target)
    {
      assert CompactionSafety.Inv(catalogs[run], target);
      CompactionSafety.SnapshotKeeps(catalogs[run], Compaction.OpenSnapshot(QUERY), target);
    }
  }

  lemma CloseAllKeeps(catalogs: map<nat, Compaction.State>, target: nat)
    requires Reached(catalogs, target) && ReadsAll(catalogs, true)
    ensures var after := CloseAll(catalogs, target);
            Reached(after, target) && ReadsAll(after, false) && SegmentsOf(after) == SegmentsOf(catalogs)
  {
    hide CompactionSafety.Inv;
    forall run | run in catalogs
      ensures CompactionSafety.Inv(CloseAll(catalogs, target)[run], target)
    {
      assert CompactionSafety.Inv(catalogs[run], target);
      CompactionSafety.SnapshotKeeps(catalogs[run], Compaction.CloseSnapshot(QUERY), target);
    }
  }

  class Server {
    const layout: Path -> seq<Block>
    const schedule: nat -> seq<Event>
    const extentBytes: ExtentKey -> nat
    const seriesBytes: (SeriesKey, ChartMetricHistory) -> nat
    const target: nat
    var tick: nat
    var catalogs: map<nat, Compaction.State>
    var held: bool
    const extents: Cache<ExtentKey, Option<AxisExtent>>
    const series: Cache<SeriesKey, ChartMetricHistory>

    ghost predicate Valid()
      reads this, extents, series
    {
      && extents.Valid() && series.Valid() && Reached(catalogs, target) && ReadsAll(catalogs, held)
      && ExtentsSound(extents.entries, Segments()) && SeriesAllSound(series.entries, Segments())
      && forall p :: LayoutTrue(p, layout(p))
    }

    function Segments(): map<nat, seq<Segment>>
      reads this`catalogs
    {
      SegmentsOf(catalogs)
    }

    constructor (target: nat, layout: Path -> seq<Block>, schedule: nat -> seq<Event>,
                 extentBytes: ExtentKey -> nat, seriesBytes: (SeriesKey, ChartMetricHistory) -> nat)
      requires forall p :: LayoutTrue(p, layout(p))
      ensures Valid() && catalogs == map[] && !held && fresh(extents) && fresh(series)
    {
      this.target, this.layout, this.schedule := target, layout, schedule;
      this.extentBytes, this.seriesBytes := extentBytes, seriesBytes;
      tick, catalogs, held := 0, map[], false;
      extents := new Cache(AXIS_EXTENT_LIMITS);
      series := new Cache(SERIES_LIMITS);
    }

    lemma ValidParts()
      requires Valid()
      ensures AllTiled(Segments()) && forall p :: LayoutTrue(p, layout(p))
    {
      hide LayoutTrue, AllTiled, SeriesAllSound, ExtentsSound, Reached, ReadsAll;
      ReachedIsTiled(catalogs, target);
    }

    /** The log a query answers about is what has been accepted for the run. */
    lemma FlatLog(run: nat)
      requires Valid()
      ensures LogIn(Segments(), run) == if run in catalogs then catalogs[run].accepted else []
    {
      hide LayoutTrue, SeriesAllSound, ExtentsSound, ReadsAll, CompactionSafety.Inv, LogOf;
      if run in catalogs { TablesOf(catalogs[run], target); }
    }

    method GetExtent(key: ExtentKey) returns (hit: Option<Option<AxisExtent>>)
      requires Valid()
      modifies extents
      ensures Valid()
      ensures hit.Some? ==> ExtentSound(key, hit.value, LogIn(Segments(), key.run))
    {
      hide LayoutTrue, AllTiled, SeriesAllSound, ExtentSound, Touched, LogIn;
      hit := extents.Get(key);
      TouchKeepsExtents(old(extents.entries), Segments(), key, extents.clock);
    }

    method StoreExtent(key: ExtentKey, e: Option<AxisExtent>)
      requires Valid() && ExtentSound(key, e, LogIn(Segments(), key.run))
      modifies extents
      ensures Valid()
    {
      hide LayoutTrue, AllTiled, SeriesAllSound, ExtentsSound, ExtentSound, LogIn, Without, EvictionOrder;
      ghost var evicted := extents.Insert(key, e, 0, extentBytes(key));
      StoreKeepsExtents(old(extents.entries), Segments(), key, Entry(e, 0, extentBytes(key), extents.clock), evicted);
    }

    method GetSeries(key: SeriesKey) returns (hit: Option<ChartMetricHistory>)
      requires Valid()
      modifies series
      ensures Valid()
      ensures hit.Some? ==> SeriesSound(key, hit.value, LogIn(Segments(), key.run))
    {
      hide LayoutTrue, AllTiled, ExtentsSound, SeriesSound, Touched, LogIn;
      hit := series.Get(key);
      TouchKeepsSeries(old(series.entries), Segments(), key, series.clock);
    }

    method StoreSeries(key: SeriesKey, h: ChartMetricHistory)
      requires Valid() && SeriesSound(key, h, LogIn(Segments(), key.run))
      modifies series
      ensures Valid()
    {
      hide LayoutTrue, AllTiled, SeriesAllSound, ExtentsSound, SeriesSound, LogIn, Without, EvictionOrder;
      ghost var evicted := series.Insert(key, h, |h.cells|, seriesBytes(key, h));
      StoreKeepsSeries(old(series.entries), Segments(), key, Entry(h, |h.cells|, seriesBytes(key, h), series.clock),
                       evicted);
    }

    /** One step of ingest, of another reader or of compaction, if it is possible now. */
    method Advance(run: nat, step: Compaction.Step)
      requires Valid()
      modifies this`catalogs
      ensures Valid() && LogsGrew(old(Segments()), Segments()) && (held ==> Grew(old(Segments()), Segments()))
    {
      Unchanged();
      hide LayoutTrue, AllTiled, SeriesAllSound, ExtentsSound, Grew, LogsGrew, Reached, ReadsAll, Foreign,
           Compaction.Enabled, Compaction.Apply;
      if run in catalogs && Foreign(step, held) && Compaction.Enabled(catalogs[run], step, target) {
        ghost var before := Segments();
        ReachedIsTiled(catalogs, target);
        StepOnRun(catalogs, held, run, step, target);
        catalogs := catalogs[run := Compaction.Apply(catalogs[run], step, target)];
        ReachedIsTiled(catalogs, target);
        CachesStaySound(extents.entries, series.entries, before, Segments());
      }
    }

    method Create(run: nat)
      requires Valid()
      modifies this`catalogs
      ensures Valid() && LogsGrew(old(Segments()), Segments()) && (held ==> Grew(old(Segments()), Segments()))
    {
      Unchanged();
      hide LayoutTrue, AllTiled, SeriesAllSound, ExtentsSound, Grew, LogsGrew, Reached, ReadsAll, NewRun;
      if run !in catalogs {
        ghost var before := Segments();
        ReachedIsTiled(catalogs, target);
        CreateOnRun(catalogs, held, run, target);
        catalogs := catalogs[run := NewRun(held)];
        ReachedIsTiled(catalogs, target);
        CachesStaySound(extents.entries, series.entries, before, Segments());
      }
    }

    lemma Unchanged()
      ensures LogsGrew(Segments(), Segments()) && Grew(Segments(), Segments())
    {
      hide LogsGrew, Grew;
      LogsGrewReflexive(Segments());
      GrewReflexive(Segments());
    }

    /** Everything else goes on until this query is resumed. */
    method Suspend()
      requires Valid()
      modifies this, extents, series
      ensures Valid() && held == old(held)
      ensures LogsGrew(old(Segments()), Segments()) && (held ==> Grew(old(Segments()), Segments()))
    {
      var events := schedule(tick);
      tick := tick + 1;
      assert Valid();
      hide *;
      Unchanged();
      var n := 0;
      while n < |events|
        invariant n <= |events| && Valid() && held == old(held)
        invariant LogsGrew(old(Segments()), Segments()) && (held ==> Grew(old(Segments()), Segments()))
      {
        ghost var before := Segments();
        Happen(events[n]);
        LogsGrewTransitive(old(Segments()), before, Segments());
        if held { GrewTransitive(old(Segments()), before, Segments()); }
        n := n + 1;
      }
    }

    method Happen(event: Event)
      requires Valid()
      modifies this, extents, series
      ensures Valid() && held == old(held)
      ensures LogsGrew(old(Segments()), Segments()) && (held ==> Grew(old(Segments()), Segments()))
    {
      hide Valid, Grew, LogsGrew, Segments, LogIn, ExtentSound, SeriesSound, KeyExtent, KeySeries, ValidSpec, SpecOf;
      Unchanged();
      match event {
        case CreateRun(run) => Create(run);
        case Happens(run, step) => Advance(run, step);
        case UseExtent(key) =>
          var _ := GetExtent(key);
        case UseSeries(key) =>
          var _ := GetSeries(key);
        case FillExtent(key) =>
          var rows := LogIn(Segments(), key.run);
          if rows != [] && Covers(rows, key.last) && key.first == First(rows) {
            IsExtentSound(key, rows);
            StoreExtent(key, KeyExtent(rows, key.key, key.first, key.last));
          }
        case FillSeries(key) =>
          var rows := LogIn(Segments(), key.run);
          if rows != [] && Covers(rows, key.last) && ValidSpec(SpecOf(key, First(rows))) {
            IsSeriesSound(key, rows);
            StoreSeries(key, KeySeries(rows, key.key, SpecOf(key, First(rows))));
          }
      }
    }

    // ------------------------------------------------------------ page loops

    method ReadExtents(scanner: ChartAxisExtentScanner, records: seq<Segment>, keys: seq<string>,
                       ghost visited: seq<Segment>)
      requires scanner.Valid() && scanner.metrics == |keys| && scanner.observed == Project(LogOf(visited), keys)
      modifies scanner, scanner.extents
      ensures scanner.Valid() && scanner.observed == Project(LogOf(visited + records), keys)
    {
      hide *;
      var n := 0;
      assert visited + records[..0] == visited;
      while n < |records|
        invariant n <= |records| && scanner.Valid() && scanner.observed == Project(LogOf(visited + records[..n]), keys)
      {
        ProjectNext(visited, records, n, keys);
        scanner.ReadRows(Project(RowsOf(records[n].path), keys));
        n := n + 1;
      }
      assert visited + records[..n] == visited + records;
    }

    method ReadCharts(sampler: ChartHistorySampler, records: seq<Segment>, keys: seq<string>,
                      ghost visited: seq<Segment>)
      requires Valid() && held && sampler.Valid() && sampler.metrics == |keys|
               && sampler.observed == Project(LogOf(visited), keys)
      modifies sampler, sampler.metricPoints, sampler.buckets
      ensures sampler.Valid() && sampler.observed == Project(LogOf(visited + records), keys)
    {
      hide *;
      var n := 0;
      assert visited + records[..0] == visited;
      ValidParts();
      while n < |records|
        invariant n <= |records| && sampler.Valid() && sampler.observed == Project(LogOf(visited + records[..n]), keys)
      {
        var p := records[n].path;
        var blocks := layout(p);
        assert LayoutTrue(p, blocks);
        ProjectNext(visited, records, n, keys);
        FileGroups(p, blocks, keys);
        sampler.ReadSegment(Groups(blocks, keys));
        n := n + 1;
      }
      assert visited + records[..n] == visited + records;
    }

    /** Scans the run's pages up to the watermark for the extents of some keys. */
    method ScanExtents(run: nat, keys: seq<string>, first: nat, last: nat, ghost initial: seq<Segment>)
      returns (found: seq<Option<AxisExtent>>)
      requires Valid() && held && keys != [] && Stored(Segments(), run, initial, last) && first <= last
      modifies this, extents, series
      ensures Valid() && held && Grew(old(Segments()), Segments())
      ensures |found| == |keys|
      ensures forall m :: 0 <= m < |keys| ==> found[m] == KeyExtent(LogOf(initial), keys[m], first, last)
    {
      hide *;
      var scanner := new ChartAxisExtentScanner(|keys|, first, last);
      var visited: seq<Segment> := [];
      var cursor: Option<nat> := None;
      var finished, stuck := false, false;
      ghost var k := 0;
      StartScan(Segments(), run, initial, last, keys);
      Unchanged();
      while !finished
        invariant Valid() && held && Grew(old(Segments()), Segments()) && !stuck
        invariant Stored(Segments(), run, initial, last) && run in Segments() && Visited(Segments()[run], k, visited)
        invariant fresh(scanner) && fresh(scanner.extents) && scanner.Valid() && scanner.metrics == |keys|
        invariant scanner.first == first && scanner.last == last
        invariant scanner.observed == Project(LogOf(visited), keys)
        invariant finished ==> |initial| <= |visited|
        invariant !finished ==> CursorOf(cursor) < last
        invariant !finished ==>
                    CursorOf(cursor) == if visited == [] then CursorOf(None) else visited[|visited| - 1].last
        decreases !finished, last - CursorOf(cursor)
      {
        ghost var before := Segments();
        Suspend();
        StoredGrows(old(Segments()), before, Segments(), run, initial, last, k, visited);
        ValidParts();
        ListsPage(Segments(), run, initial, last, k);
        var now := Segments()[run];
        ghost var earlier, was := visited, CursorOf(cursor);
        var records := Page(now, CursorOf(cursor));
        visited, cursor, finished, stuck := ScanPage(initial, now, None, last, k, visited, cursor);
        ReadExtents(scanner, records, keys, earlier);
      }
      ValidParts();
      ScanReads(Segments(), run, initial, last, k, visited, keys, first);
      found := scanner.extents[..];
      ScannerParts(scanner);
      forall m | 0 <= m < |keys|
        ensures |found| == |keys| && found[m] == KeyExtent(LogOf(initial), keys[m], first, last)
      {
        ScannedExtent(scanner.observed, LogOf(visited), keys, first, last, m);
      }
    }

    /** Samples the run's pages up to the watermark for some keys at once. */
    method SampleSeries(run: nat, keys: seq<string>, spec: ChartSpec, ghost initial: seq<Segment>)
      returns (sampled: seq<ChartMetricHistory>)
      requires Valid() && held && keys != [] && Stored(Segments(), run, initial, spec.last)
      requires ValidSpec(spec) && spec.maxBuckets * |keys| <= MAX_CHART_QUERY_CELLS
      modifies this, extents, series
      ensures Valid() && held && Grew(old(Segments()), Segments())
      ensures |sampled| == |keys|
      ensures forall m :: 0 <= m < |keys| ==> sampled[m] == KeySeries(LogOf(initial), keys[m], spec)
    {
      hide *;
      var last := spec.last;
      var created := NewAligned(|keys|, spec, MAX_CHART_QUERY_CELLS);
      var sampler := created.value;
      var visited: seq<Segment> := [];
      var cursor: Option<nat> := None;
      var finished, stuck := false, false;
      ghost var k := 0;
      StartScan(Segments(), run, initial, last, keys);
      Unchanged();
      while !finished
        invariant Valid() && held && Grew(old(Segments()), Segments()) && !stuck
        invariant Stored(Segments(), run, initial, last) && run in Segments() && Visited(Segments()[run], k, visited)
        invariant fresh(sampler) && fresh(sampler.metricPoints) && fresh(sampler.buckets)
        invariant sampler.Valid() && sampler.metrics == |keys| && sampler.spec == spec
        invariant sampler.observed == Project(LogOf(visited), keys)
        invariant finished ==> |initial| <= |visited|
        invariant !finished ==> CursorOf(cursor) < last
        invariant !finished ==>
                    CursorOf(cursor) == if visited == [] then CursorOf(None) else visited[|visited| - 1].last
        decreases !finished, last - CursorOf(cursor)
      {
        ghost var before := Segments();
        Suspend();
        StoredGrows(old(Segments()), before, Segments(), run, initial, last, k, visited);
        ValidParts();
        ListsPage(Segments(), run, initial, last, k);
        var now := Segments()[run];
        ghost var earlier := visited;
        var records := Page(now, CursorOf(cursor));
        visited, cursor, finished, stuck := ScanPage(initial, now, None, last, k, visited, cursor);
        ReadCharts(sampler, records, keys, earlier);
      }
      ValidParts();
      SampleReads(Segments(), run, initial, k, visited, keys, spec);
      sampled := sampler.Finish();
      forall m | 0 <= m < |keys|
        ensures sampled[m] == KeySeries(LogOf(initial), keys[m], spec)
      {
        SampledSeries(sampler.observed, LogOf(visited), keys, spec, m);
      }
    }

    // ----------------------------------------------------------------- query

    /** The axis extent of one run: cached extents first, then one scan for the missing keys. */
    method PlanAxis(run: nat, keys: seq<string>, extent: Extent, ghost initial: seq<Segment>)
      returns (axis: Option<AxisExtent>)
      requires Valid() && held && keys != [] && Stored(Segments(), run, initial, extent.last)
      requires LogOf(initial) != [] && extent.first == First(LogOf(initial)) && extent.last == Last(LogOf(initial))
      requires extent.first <= extent.last
      modifies this, extents, series
      ensures Valid() && held && Grew(old(Segments()), Segments())
      ensures axis == RunAxis(LogOf(initial), keys, extent.first, extent.last)
    {
      hide *;
      ghost var rows := LogOf(initial);
      var missing: seq<string> := [];
      axis := None;
      var n := 0;
      ValidParts();
      NoKeysYet(rows, keys, extent.first, extent.last);
      while n < |keys|
        invariant n <= |keys| && Valid() && held && Segments() == old(Segments()) && |missing| <= n
        invariant Combine(axis, RunAxis(rows, missing, extent.first, extent.last))
                  == RunAxis(rows, keys[..n], extent.first, extent.last)
      {
        var key := ExtentKey(run, keys[n], extent.first, extent.last);
        var hit := GetExtent(key);
        match hit {
          case Some(cached) =>
            CachedExtentIsUncached(Segments(), key, cached, initial);
            HitKey(rows, keys, n, extent.first, extent.last, axis, missing);
            axis := Combine(axis, cached);
          case None =>
            MissedKey(rows, keys, n, extent.first, extent.last, axis, missing);
            missing := missing + [keys[n]];
        }
        n := n + 1;
      }
      assert keys[..n] == keys;
      ghost var cachedAxis := axis;
      Unchanged();
      if missing != [] {
        var found := ScanExtents(run, missing, extent.first, extent.last, initial);
        StoredLater(old(Segments()), Segments(), run, initial, extent.last);
        n := 0;
        NoneScannedYet(rows, missing, extent.first, extent.last, axis);
        while n < |missing|
          invariant n <= |missing| && Valid() && held && Grew(old(Segments()), Segments())
                    && Stored(Segments(), run, initial, extent.last)
          invariant axis == Combine(cachedAxis, RunAxis(rows, missing[..n], extent.first, extent.last))
        {
          ValidParts();
          var key := ExtentKey(run, missing[n], extent.first, extent.last);
          ScannedExtentIsSound(Segments(), key, initial, extent);
          StoreExtent(key, found[n]);
          ScannedKey(rows, missing, n, extent.first, extent.last, cachedAxis);
          axis := Combine(axis, found[n]);
          n := n + 1;
        }
        assert missing[..n] == missing;
      } else {
        NoMissing(rows, missing, extent.first, extent.last, axis);
      }
    }

    /** What a run's sampling pass is about: its log at plan time, held up to the watermark. */
    ghost predicate AtPlan(run: nat, spec: ChartSpec, initial: seq<Segment>)
      reads this`catalogs
    {
      && Stored(Segments(), run, initial, spec.last) && ValidSpec(spec)
      && LogOf(initial) != [] && spec.first == First(LogOf(initial)) && spec.last == Last(LogOf(initial))
    }

    lemma PlanParts(run: nat, spec: ChartSpec, initial: seq<Segment>)
      requires AtPlan(run, spec, initial)
      ensures Stored(Segments(), run, initial, spec.last) && ValidSpec(spec)
      ensures LogOf(initial) != [] && spec.first == First(LogOf(initial)) && spec.last == Last(LogOf(initial))
    {
    }

    lemma IsAtPlan(run: nat, spec: ChartSpec, initial: seq<Segment>)
      requires Stored(Segments(), run, initial, spec.last) && ValidSpec(spec)
      requires LogOf(initial) != [] && spec.first == First(LogOf(initial)) && spec.last == Last(LogOf(initial))
      ensures AtPlan(run, spec, initial)
    {
    }

    /** Suspends, then looks one series up. */
    method LookUp(run: nat, key: string, alignment: Alignment, spec: ChartSpec, ghost initial: seq<Segment>)
      returns (hit: Option<ChartMetricHistory>)
      requires Valid() && held && AtPlan(run, spec, initial)
      modifies this, extents, series
      ensures Valid() && held && Grew(old(Segments()), Segments()) && AtPlan(run, spec, initial)
      ensures hit.Some? ==> hit.value == KeySeries(LogOf(initial), key, spec)
    {
      hide Valid, Stored, ValidSpec, LogOf, Grew, AllTiled, LayoutTrue, KeyFor, SeriesSound, KeySeries, LogIn, First,
           Last;
      Suspend();
      StoredLater(old(Segments()), Segments(), run, initial, spec.last);
      ValidParts();
      var k := KeyFor(run, key, alignment, spec);
      hit := GetSeries(k);
      if hit.Some? { CachedSeriesIsUncached(Segments(), k, hit.value, initial, alignment, spec); }
    }

    /** Suspends, then caches one sampled series. */
    method Remember(run: nat, key: string, alignment: Alignment, spec: ChartSpec, h: ChartMetricHistory,
                    ghost initial: seq<Segment>)
      requires Valid() && held && AtPlan(run, spec, initial) && h == KeySeries(LogOf(initial), key, spec)
      modifies this, extents, series
      ensures Valid() && held && Grew(old(Segments()), Segments()) && AtPlan(run, spec, initial)
    {
      hide Valid, Stored, ValidSpec, LogOf, Grew, AllTiled, LayoutTrue, KeyFor, SeriesSound, KeySeries, LogIn, First,
           Last;
      Suspend();
      StoredLater(old(Segments()), Segments(), run, initial, spec.last);
      ValidParts();
      var k := KeyFor(run, key, alignment, spec);
      SampledSeriesIsSound(Segments(), k, initial, alignment, spec);
      StoreSeries(k, h);
    }

    /** The series of one run: cached ones, and one sampling pass for the missing keys. */
    method SampleRun(run: nat, keys: seq<string>, alignment: Alignment, spec: ChartSpec, ghost initial: seq<Segment>)
      returns (histories: seq<ChartMetricHistory>)
      requires Valid() && held && keys != [] && AtPlan(run, spec, initial)
               && spec.maxBuckets * |keys| <= MAX_CHART_QUERY_CELLS
      modifies this, extents, series
      ensures Valid() && held && Grew(old(Segments()), Segments())
      ensures |histories| == |keys| && forall j :: 0 <= j < |keys| ==>
                histories[j] == KeySeries(LogOf(initial), keys[j], spec)
    {
      hide *;
      ghost var rows := LogOf(initial);
      PlanParts(run, spec, initial);
      var sampled: map<string, ChartMetricHistory> := map[];
      var missing: seq<string> := [];
      var n := 0;
      Unchanged();
      while n < |keys|
        invariant n <= |keys| && Valid() && held && Grew(old(Segments()), Segments()) && AtPlan(run, spec, initial)
        invariant |missing| <= n && forall j :: 0 <= j < n ==> keys[j] in sampled || keys[j] in missing
        invariant forall key :: key in sampled ==> sampled[key] == KeySeries(rows, key, spec)
      {
        ghost var before := Segments();
        var hit := LookUp(run, keys[n], alignment, spec, initial);
        GrewTransitive(old(Segments()), before, Segments());
        match hit {
          case Some(history) => sampled := sampled[keys[n] := history];
          case None => missing := missing + [keys[n]];
        }
        n := n + 1;
      }
      if missing != [] {
        FewerKeys(spec.maxBuckets, |missing|, |keys|);
        ghost var before := Segments();
        sampled := SampleMissing(run, missing, alignment, spec, initial, sampled);
        GrewTransitive(old(Segments()), before, Segments());
      }
      histories := seq(|keys|, j requires 0 <= j < |keys| && keys[j] in sampled => sampled[keys[j]]);
    }

    method SampleMissing(run: nat, missing: seq<string>, alignment: Alignment, spec: ChartSpec,
                         ghost initial: seq<Segment>, cached: map<string, ChartMetricHistory>)
      returns (sampled: map<string, ChartMetricHistory>)
      requires Valid() && held && missing != [] && AtPlan(run, spec, initial) && ValidSpec(spec)
      requires spec.maxBuckets * |missing| <= MAX_CHART_QUERY_CELLS
      requires forall key :: key in cached ==> cached[key] == KeySeries(LogOf(initial), key, spec)
      modifies this, extents, series
      ensures Valid() && held && Grew(old(Segments()), Segments())
      ensures forall key :: key in cached || key in missing ==> key in sampled
      ensures forall key :: key in sampled ==> sampled[key] == KeySeries(LogOf(initial), key, spec)
    {
      hide *;
      sampled := cached;
      PlanParts(run, spec, initial);
      var results := SampleSeries(run, missing, spec, initial);
      StoredLater(old(Segments()), Segments(), run, initial, spec.last);
      IsAtPlan(run, spec, initial);
      var n := 0;
      while n < |missing|
        invariant n <= |missing| && Valid() && held && Grew(old(Segments()), Segments()) && AtPlan(run, spec, initial)
        invariant forall key :: key in cached || key in missing[..n] ==> key in sampled
        invariant forall key :: key in sampled ==> sampled[key] == KeySeries(LogOf(initial), key, spec)
      {
        ghost var before := Segments();
        Remember(run, missing[n], alignment, spec, results[n], initial);
        GrewTransitive(old(Segments()), before, Segments());
        sampled := sampled[missing[n] := results[n]];
        assert missing[..n + 1] == missing[..n] + [missing[n]];
        n := n + 1;
      }
      assert missing[..n] == missing;
    }

    /** Reads one run's watermark and, where needed, its axis extent. */
    method PlanRun(request: Request, i: nat) returns (plan: Plan, ghost initial: seq<Segment>)
      requires Valid() && held && ValidRequest(request) && i < |request.runs| && request.runs[i].run in Segments()
      modifies this, extents, series
      ensures Valid() && held && Grew(old(Segments()), Segments())
      ensures HeldRun(Segments(), request.runs[i].run, initial) && plan == PlanOf(request, i, LogOf(initial))
      ensures old(Segments())[request.runs[i].run] <= initial
    {
      hide *;
      var run, keys := request.runs[i].run, request.runs[i].keys;
      RunHasKeys(request, i);
      Suspend();
      GrewRun(old(Segments()), Segments(), run);
      ValidParts();
      initial := Segments()[run];
      CurrentIsHeld(Segments(), run);
      var extent := ExtentAfter(Segments()[run], None);
      WatermarkOfLog(initial);
      plan := Plan(extent, None);
      if NeedsAxis(request) && extent.Some? {
        ghost var before := Segments();
        CurrentIsStored(Segments(), run, extent.value.last);
        var axis := PlanAxis(run, keys, extent.value, initial);
        plan := Plan(extent, axis);
        HeldLater(before, Segments(), run, initial);
        GrewTransitive(old(Segments()), before, Segments());
      }
      PlanIs(request, i, LogOf(initial), plan);
    }

    method MakePlans(request: Request) returns (plans: seq<Plan>, ghost initials: seq<seq<Segment>>)
      requires Valid() && held && ValidRequest(request)
      requires forall i :: 0 <= i < |request.runs| ==> request.runs[i].run in Segments()
      modifies this, extents, series
      ensures Valid() && held && Grew(old(Segments()), Segments())
      ensures |plans| == |initials| == |request.runs| && Held(Segments(), request, initials)
      ensures forall i :: 0 <= i < |plans| ==> plans[i] == PlanOf(request, i, LogOf(initials[i]))
      ensures Began(old(Segments()), request, initials)
    {
      hide *;
      plans, initials := [], [];
      Unchanged();
      NoneHeld(Segments(), request);
      while |plans| < |request.runs|
        invariant Valid() && held && Grew(old(Segments()), Segments())
        invariant |plans| == |initials| <= |request.runs| && Held(Segments(), request, initials)
        invariant forall i :: 0 <= i < |plans| ==> plans[i] == PlanOf(request, i, LogOf(initials[i]))
        invariant forall i :: 0 <= i < |plans| ==> old(Segments())[request.runs[i].run] <= initials[i]
      {
        ghost var before := Segments();
        var i := |plans|;
        GrewRun(old(Segments()), Segments(), request.runs[i].run);
        var plan: Plan;
        ghost var initial;
        plan, initial := PlanRun(request, i);
        AllHeldLater(before, Segments(), request, initials, initial);
        GrewTransitive(old(Segments()), before, Segments());
        plans, initials := plans + [plan], initials + [initial];
      }
      AllBegan(old(Segments()), request, initials);
    }

    /** One run's part of the response. */
    method AnswerRun(request: Request, i: nat, plan: Plan, x: Range, ghost initial: seq<Segment>)
      returns (histories: seq<ChartMetricHistory>)
      requires Valid() && held && ValidRequest(request) && i < |request.runs| && x.minimum <= x.maximum
      requires HeldRun(Segments(), request.runs[i].run, initial) && plan == PlanOf(request, i, LogOf(initial))
      requires OrderedLogs([LogOf(initial)])
      modifies this, extents, series
      ensures Valid() && held && Grew(old(Segments()), Segments())
      ensures |histories| == |request.runs[i].keys|
      ensures forall j :: 0 <= j < |histories| ==>
                histories[j] == AnswerAt(request, i, j, LogOf(initial), x)
    {
      hide *;
      ghost var rows := LogOf(initial);
      var keys := request.runs[i].keys;
      RunHasKeys(request, i);
      Unchanged();
      var coordinate := CoordinateOf(request.alignment, plan.axis);
      if plan.extent.None? || coordinate.None? {
        histories := seq(|keys|, _ => EMPTY_SERIES);
        NothingToSample(request, i, rows, x, plan);
      } else {
        var spec := ChartSpec(plan.extent.value.first, plan.extent.value.last, coordinate.value, x.minimum,
                              x.maximum, request.maxBuckets);
        PlannedSpec(Segments(), request, i, plan, x, initial, spec);
        IsAtPlan(request.runs[i].run, spec, initial);
        histories := SampleRun(request.runs[i].run, keys, request.alignment, spec, initial);
      }
    }

    /** `query_chart_history`: the answer is the uncached one for logs that were current during the query. */
    method QueryChartHistory(request: Request) returns (response: Option<Response>, ghost initials: seq<seq<Segment>>)
      requires Valid() && held && ValidRequest(request)
      modifies this, extents, series
      ensures Valid() && held && Grew(old(Segments()), Segments())
      ensures response.None? <==> exists i :: 0 <= i < |request.runs| && request.runs[i].run !in old(Segments())
      ensures response.Some? ==> Held(Segments(), request, initials) && Began(old(Segments()), request, initials)
      ensures response.Some? ==> IsUncached(request, Logs(initials), response.value)
      ensures response.Some? ==> IsChart(request, Logs(initials), response.value)
    {
      hide *;
      initials := [];
      Unchanged();
      if exists i :: 0 <= i < |request.runs| && request.runs[i].run !in Segments() { return None, []; }
      var plans: seq<Plan>;
      plans, initials := MakePlans(request);
      HeldIsTiled(Segments(), request, initials);
      PlanFacts(request, plans, initials);
      var x := if request.viewport.Some? then request.viewport else XExtent(request.alignment, AxesOf(plans));
      var watermarks := seq(|plans|, i requires 0 <= i < |plans| =>
                              if plans[i].extent.Some? then Some(plans[i].extent.value.last) else None);
      if x.None? {
        var empty := seq(|plans|, i requires 0 <= i < |plans| && |plans| == |request.runs| =>
                           seq(|request.runs[i].keys|, _ => EMPTY_SERIES));
        response := Some(Response(None, 0, watermarks, empty));
        EmptyAnswer(request, initials, response.value);
      } else {
        var bucketCount := Min(x.value.maximum - x.value.minimum + 1, request.maxBuckets);
        CountIsNat(request, x.value);
        ghost var before := Segments();
        var series := AnswerRuns(request, plans, x.value, initials);
        GrewTransitive(old(Segments()), before, Segments());
        response := Some(Response(x, bucketCount, watermarks, series));
        FullAnswer(request, initials, response.value);
      }
      AnswerIsChart(request, initials, response.value);
    }

    method AnswerRuns(request: Request, plans: seq<Plan>, x: Range, ghost initials: seq<seq<Segment>>)
      returns (answers: seq<seq<ChartMetricHistory>>)
      requires Valid() && held && ValidRequest(request) && x.minimum <= x.maximum
      requires |plans| == |initials| == |request.runs| && Held(Segments(), request, initials)
               && OrderedLogs(Logs(initials))
      requires forall i :: 0 <= i < |plans| ==> plans[i] == PlanOf(request, i, LogOf(initials[i]))
      modifies this, extents, series
      ensures Valid() && held && Grew(old(Segments()), Segments()) && Held(Segments(), request, initials)
      ensures |answers| == |request.runs|
      ensures forall i :: 0 <= i < |answers| ==> AnswersRun(request, i, initials[i], x, answers[i])
    {
      hide *;
      answers := [];
      Unchanged();
      while |answers| < |request.runs|
        invariant Valid() && held && Grew(old(Segments()), Segments()) && Held(Segments(), request, initials)
        invariant |answers| <= |request.runs|
        invariant forall i :: 0 <= i < |answers| ==> AnswersRun(request, i, initials[i], x, answers[i])
      {
        ghost var before := Segments();
        var i := |answers|;
        OneHeld(Segments(), request, initials, i);
        OneOrdered(initials, i);
        var histories := AnswerRun(request, i, plans[i], x, initials[i]);
        StillHeld(before, Segments(), request, initials);
        GrewTransitive(old(Segments()), before, Segments());
        IsAnswer(request, i, initials[i], x, histories);
        answers := answers + [histories];
      }
    }

    // ------------------------------------------------------------ whole runs

    /** Tries to take the read side of the snapshot lock, for all runs at once. */
    method TakeSnapshot() returns (taken: bool)
      requires Valid() && !held
      modifies this`catalogs, this`held
      ensures Valid() && held == taken && Segments() == old(Segments())
      ensures taken <==> LockFree(old(catalogs))
    {
      hide LayoutTrue, AllTiled, SeriesAllSound, ExtentsSound, Reached, ReadsAll, LockFree, OpenAll, SegmentsOf;
      taken := LockFree(catalogs);
      if taken {
        OpenAllKeeps(catalogs, target);
        catalogs, held := OpenAll(catalogs, target), true;
      }
    }

    method ReleaseSnapshot()
      requires Valid() && held
      modifies this`catalogs, this`held
      ensures Valid() && !held && Segments() == old(Segments())
    {
      hide LayoutTrue, AllTiled, SeriesAllSound, ExtentsSound, Reached, ReadsAll, CloseAll, SegmentsOf;
      CloseAllKeeps(catalogs, target);
      catalogs, held := CloseAll(catalogs, target), false;
    }

    /** One request from arrival to reply; it stays waiting while a writer holds the snapshot lock. */
    method Reply(request: Request) returns (reply: Outcome, ghost logs: seq<seq<Row>>)
      requires Valid() && !held && ValidRequest(request)
      modifies this, extents, series
      ensures Valid() && !held && LogsGrew(old(Segments()), Segments())
      ensures reply.Answered? ==> IsUncached(request, logs, reply.response) && IsChart(request, logs, reply.response)
      ensures reply.Answered? ==> Between(old(Segments()), request, logs, Segments())
    {
      hide *;
      logs := [];
      Suspend();
      ghost var before := Segments();
      var taken := TakeSnapshot();
      if !taken { return Waiting, []; }
      var response: Option<Response>;
      ghost var initials;
      response, initials := QueryChartHistory(request);
      ValidParts();
      GrewLogs(before, Segments());
      LogsGrewTransitive(old(Segments()), before, Segments());
      if response.Some? { AnsweredBetween(old(Segments()), before, request, initials, Segments()); }
      ReleaseSnapshot();
      match response {
        case None => reply := NotFound;
        case Some(answer) => reply, logs := Answered(answer), Logs(initials);
      }
    }

    /**
      Any run of the server: requests are answered one after the other while everything else
      happens before, during and between them.  Every answer is the uncached one for the rows
      its runs had when it was planned; these rows never change again, and later answers see
      at least what earlier ones saw.
     */
    method Serve(requests: seq<Request>) returns (replies: seq<Outcome>, ghost logs: seq<seq<seq<Row>>>)
      requires Valid() && !held && forall n :: 0 <= n < |requests| ==> ValidRequest(requests[n])
      modifies this, extents, series
      ensures Valid() && !held && |replies| == |logs| == |requests|
      ensures forall n :: 0 <= n < |replies| && replies[n].Answered? ==>
                && IsUncached(requests[n], logs[n], replies[n].response)
                && IsChart(requests[n], logs[n], replies[n].response)
                && Between(old(Segments()), requests[n], logs[n], Segments())
      ensures forall m, n :: 0 <= m < n < |replies| && replies[m].Answered? && replies[n].Answered? ==>
                SeesMore(requests[m], logs[m], requests[n], logs[n])
    {
      hide *;
      replies, logs := [], [];
      Unchanged();
      while |replies| < |requests|
        invariant Valid() && !held && |replies| == |logs| <= |requests| && LogsGrew(old(Segments()), Segments())
        invariant forall n :: 0 <= n < |replies| && replies[n].Answered? ==>
                    && IsUncached(requests[n], logs[n], replies[n].response)
                    && IsChart(requests[n], logs[n], replies[n].response)
                    && Between(old(Segments()), requests[n], logs[n], Segments())
        invariant forall m, n :: 0 <= m < n < |replies| && replies[m].Answered? && replies[n].Answered? ==>
                    SeesMore(requests[m], logs[m], requests[n], logs[n])
      {
        ghost var before := Segments();
        var n := |replies|;
        var reply: Outcome;
        ghost var seen;
        reply, seen := Reply(requests[n]);
        forall m | 0 <= m < n && replies[m].Answered?
          ensures Between(old(Segments()), requests[m], logs[m], Segments())
          ensures reply.Answered? ==> SeesMore(requests[m], logs[m], requests[n], seen)
        {
          StillBetween(old(Segments()), before, requests[m], logs[m], Segments());
          if reply.Answered? {
            BetweenSeesMore(old(Segments()), before, requests[m], logs[m], requests[n], seen, Segments());
          }
        }
        if reply.Answered? { BetweenEarlier(old(Segments()), before, requests[n], seen, Segments()); }
        LogsGrewTransitive(old(Segments()), before, Segments());
        replies, logs := replies + [reply], logs + [seen];
      }
    }
  }

  datatype Outcome = Waiting | NotFound | Answered(response: Response)

  /** The rows an answer is about lie between two listings of their runs. */
  ghost predicate Between(before: map<nat, seq<Segment>>, request: Request, logs: seq<seq<Row>>,
                          after: map<nat, seq<Segment>>)
  {
    && |logs| == |request.runs|
    && forall i :: 0 <= i < |logs| ==>
         LogIn(before, request.runs[i].run) <= logs[i] <= LogIn(after, request.runs[i].run)
  }

  /** Where both answers are about the same run, the second one is about no fewer rows. */
  ghost predicate SeesMore(earlier: Request, seen: seq<seq<Row>>, later: Request, logs: seq<seq<Row>>) {
    && |seen| == |earlier.runs| && |logs| == |later.runs|
    && forall i, j :: 0 <= i < |seen| && 0 <= j < |logs| && earlier.runs[i].run == later.runs[j].run ==>
         seen[i] <= logs[j]
  }

  lemma GrewLogs(before: map<nat, seq<Segment>>, after: map<nat, seq<Segment>>)
    requires Grew(before, after)
    ensures LogsGrew(before, after)
  {
    hide LogOf;
    forall run
      ensures LogIn(before, run) <= LogIn(after, run)
    {
      if run in before { PrefixLog(before[run], after[run]); }
    }
  }

  lemma PrefixLog(a: seq<Segment>, b: seq<Segment>)
    requires a <= b
    ensures LogOf(a) <= LogOf(b)
  {
    hide LogOf;
    assert b == a + b[|a|..];
    LogConcat(a, b[|a|..]);
  }

  lemma AnsweredBetween(oldest: map<nat, seq<Segment>>, before: map<nat, seq<Segment>>, request: Request,
                        initials: seq<seq<Segment>>, after: map<nat, seq<Segment>>)
    requires LogsGrew(oldest, before) && Held(after, request, initials) && Began(before, request, initials)
    ensures Between(oldest, request, Logs(initials), after)
  {
    hide LogOf, Tiled;
    forall i | 0 <= i < |initials|
      ensures LogIn(oldest, request.runs[i].run) <= LogOf(initials[i]) <= LogIn(after, request.runs[i].run)
    {
      var run := request.runs[i].run;
      assert HeldRun(after, run, initials[i]);
      assert LogIn(oldest, run) <= LogIn(before, run);
      PrefixLog(before[run], initials[i]);
      PrefixLog(initials[i], after[run]);
    }
  }

  lemma StillBetween(oldest: map<nat, seq<Segment>>, before: map<nat, seq<Segment>>, request: Request,
                     logs: seq<seq<Row>>, after: map<nat, seq<Segment>>)
    requires Between(oldest, request, logs, before) && LogsGrew(before, after)
    ensures Between(oldest, request, logs, after)
  {
    hide LogIn;
    forall i | 0 <= i < |logs|
      ensures logs[i] <= LogIn(after, request.runs[i].run)
    {
      assert LogIn(before, request.runs[i].run) <= LogIn(after, request.runs[i].run);
    }
  }

  lemma BetweenEarlier(oldest: map<nat, seq<Segment>>, before: map<nat, seq<Segment>>, request: Request,
                       logs: seq<seq<Row>>, after: map<nat, seq<Segment>>)
    requires Between(before, request, logs, after) && LogsGrew(oldest, before)
    ensures Between(oldest, request, logs, after)
  {
    hide LogIn;
    forall i | 0 <= i < |logs|
      ensures LogIn(oldest, request.runs[i].run) <= logs[i]
    {
      assert LogIn(oldest, request.runs[i].run) <= LogIn(before, request.runs[i].run);
    }
  }

  lemma BetweenSeesMore(oldest: map<nat, seq<Segment>>, before: map<nat, seq<Segment>>, earlier: Request,
                        seen: seq<seq<Row>>, later: Request, logs: seq<seq<Row>>, after: map<nat, seq<Segment>>)
    requires Between(oldest, earlier, seen, before) && Between(before, later, logs, after)
    ensures SeesMore(earlier, seen, later, logs)
  {
    hide LogIn;
    forall i, j | 0 <= i < |seen| && 0 <= j < |logs| && earlier.runs[i].run == later.runs[j].run
      ensures seen[i] <= logs[j]
    {
      assert seen[i] <= LogIn(before, earlier.runs[i].run) && LogIn(before, later.runs[j].run) <= logs[j];
    }
  }

  // ------------------------------------------------------- scanning the log

  lemma ProjectNext(visited: seq<Segment>, records: seq<Segment>, n: nat, keys: seq<string>)
    requires n < |records|
    ensures Project(LogOf(visited + records[..n + 1]), keys)
            == Project(LogOf(visited + records[..n]), keys) + Project(RowsOf(records[n].path), keys)
    ensures Samples.Shaped(Project(RowsOf(records[n].path), keys), |keys|)
  {
    hide LogOf, RowsOf, ProjectRow;
    assert visited + records[..n + 1] == (visited + records[..n]) + [records[n]];
    LogConcat(visited + records[..n], [records[n]]);
    LogOfOne(records[n]);
    ProjectSplit(LogOf(visited + records[..n]), RowsOf(records[n].path), keys);
  }

  lemma FileGroups(p: Path, blocks: seq<Block>, keys: seq<string>)
    requires LayoutTrue(p, blocks)
    ensures forall i :: 0 <= i < |blocks| ==>
              Truthful(Groups(blocks, keys)[i]) && GroupShaped(Groups(blocks, keys)[i], |keys|)
    ensures RowsOfGroups(Groups(blocks, keys)) == Project(RowsOf(p), keys)
  {
    hide BlockTrue, RowsOf, Truthful, GroupShaped;
    GroupsAreTrue(blocks, keys);
    RowsOfTheGroups(blocks, keys);
  }

  /** The run still holds what it held at plan time, which ends at the watermark. */
  ghost predicate Stored(segments: map<nat, seq<Segment>>, run: nat, initial: seq<Segment>, last: nat) {
    run in segments && initial <= segments[run] && initial != [] && initial[|initial| - 1].last == last
  }

  lemma StartScan(segments: map<nat, seq<Segment>>, run: nat, initial: seq<Segment>, last: nat, keys: seq<string>)
    requires Stored(segments, run, initial, last)
    ensures run in segments && Visited(segments[run], 0, []) && Project(LogOf([]), keys) == [] && CursorOf(None) < last
  {
    assert Paths([]) == [];
  }

  lemma StoredGrows(oldest: map<nat, seq<Segment>>, before: map<nat, seq<Segment>>, after: map<nat, seq<Segment>>,
                    run: nat, initial: seq<Segment>, last: nat, k: nat, visited: seq<Segment>)
    requires Grew(oldest, before) && Grew(before, after)
    requires Stored(before, run, initial, last) && run in before && Visited(before[run], k, visited)
    ensures Grew(oldest, after) && Stored(after, run, initial, last) && run in after && Visited(after[run], k, visited)
  {
    GrewTransitive(oldest, before, after);
    VisitedLater(before[run], after[run], k, visited);
  }

  lemma ListsPage(segments: map<nat, seq<Segment>>, run: nat, initial: seq<Segment>, last: nat, k: nat)
    requires Stored(segments, run, initial, last) && AllTiled(segments) && k == 0
    ensures Tiled(segments[run]) && initial <= segments[run] && FirstUnread(initial, CursorOf(None), k)
  {
    hide Describes;
    TiledPrefix(initial, segments[run]);
    assert -1 < initial[0].last;
  }

  lemma ScannerParts(scanner: ChartAxisExtentScanner)
    requires scanner.Valid()
    ensures scanner.extents.Length == scanner.metrics && Samples.Shaped(scanner.observed, scanner.metrics)
    ensures forall m :: 0 <= m < scanner.metrics ==>
              scanner.extents[m]
                == ChartHistory.Extent(scanner.observed, scanner.metrics, scanner.first, scanner.last, m)
  {
  }

  lemma ScannedExtent(observed: seq<Samples.Sample>, rows: seq<Row>, keys: seq<string>, first: nat, last: nat, m: nat)
    requires m < |keys| && observed == Project(rows, keys)
    ensures ChartHistory.Extent(observed, |keys|, first, last, m) == KeyExtent(rows, keys[m], first, last)
  {
    ExtentOfKey(rows, keys, first, last, m);
  }

  /** What was scanned is the log at plan time and then only rows past the watermark. */
  lemma ScanReads(segments: map<nat, seq<Segment>>, run: nat, initial: seq<Segment>, last: nat, k: nat,
                  visited: seq<Segment>, keys: seq<string>, first: nat)
    requires Stored(segments, run, initial, last) && AllTiled(segments) && k == 0
    requires Visited(segments[run], k, visited) && |initial| <= |visited|
    ensures forall m :: 0 <= m < |keys| ==>
              KeyExtent(LogOf(visited), keys[m], first, last) == KeyExtent(LogOf(initial), keys[m], first, last)
  {
    hide *;
    StoredParts(segments, run, initial, last);
    ListsPage(segments, run, initial, last, k);
    VisitedFits(segments[run], 0, visited);
    var extra := ScanReadsTheLog(initial, segments[run], CursorOf(None), 0, |visited|);
    assert initial[0..] == initial;
    IsBeyond(extra, last);
    forall m | 0 <= m < |keys|
      ensures KeyExtent(LogOf(visited), keys[m], first, last) == KeyExtent(LogOf(initial), keys[m], first, last)
    {
      ExtentIgnoresLater(LogOf(initial), extra, keys[m], first, last);
    }
  }

  lemma SampledSeries(observed: seq<Samples.Sample>, rows: seq<Row>, keys: seq<string>, spec: ChartSpec, m: nat)
    requires m < |keys| && observed == Project(rows, keys) && ValidSpec(spec)
    ensures SeriesOf(observed, |keys|, spec, m) == KeySeries(rows, keys[m], spec)
  {
    SeriesOfKey(rows, keys, spec, m);
  }

  lemma SampleReads(segments: map<nat, seq<Segment>>, run: nat, initial: seq<Segment>, k: nat, visited: seq<Segment>,
                    keys: seq<string>, spec: ChartSpec)
    requires Stored(segments, run, initial, spec.last) && AllTiled(segments) && k == 0 && ValidSpec(spec)
    requires Visited(segments[run], k, visited) && |initial| <= |visited|
    ensures forall m :: 0 <= m < |keys| ==>
              KeySeries(LogOf(visited), keys[m], spec) == KeySeries(LogOf(initial), keys[m], spec)
  {
    hide *;
    StoredParts(segments, run, initial, spec.last);
    ListsPage(segments, run, initial, spec.last, k);
    VisitedFits(segments[run], 0, visited);
    var extra := ScanReadsTheLog(initial, segments[run], CursorOf(None), 0, |visited|);
    assert initial[0..] == initial;
    IsBeyond(extra, spec.last);
    forall m | 0 <= m < |keys|
      ensures KeySeries(LogOf(visited), keys[m], spec) == KeySeries(LogOf(initial), keys[m], spec)
    {
      SeriesIgnoresLater(LogOf(initial), extra, keys[m], spec);
    }
  }

  // ---------------------------------------------------------- query lemmas

  function KeyFor(run: nat, key: string, alignment: Alignment, spec: ChartSpec): (k: SeriesKey)
    ensures k.run == run && k.key == key && k.last == spec.last
  {
    SeriesKey(run, key, spec.last, alignment, spec.coordinate, spec.xMin, spec.xMax, spec.maxBuckets)
  }

  /** With the run's first sequence the key says everything the sampler is told. */
  lemma KeyNamesSpec(key: SeriesKey, alignment: Alignment, spec: ChartSpec)
    requires key == KeyFor(key.run, key.key, alignment, spec)
    ensures key.last == spec.last && SpecOf(key, spec.first) == spec
  {
  }

  lemma StoredParts(segments: map<nat, seq<Segment>>, run: nat, initial: seq<Segment>, last: nat)
    requires Stored(segments, run, initial, last)
    ensures run in segments && initial <= segments[run] && initial != [] && initial[|initial| - 1].last == last
  {
  }

  lemma StoredLater(before: map<nat, seq<Segment>>, after: map<nat, seq<Segment>>, run: nat, initial: seq<Segment>,
                    last: nat)
    requires Grew(before, after) && Stored(before, run, initial, last)
    ensures Stored(after, run, initial, last)
  {
  }

  lemma FewerKeys(maxBuckets: nat, a: nat, b: nat)
    requires a <= b && maxBuckets * b <= MAX_CHART_QUERY_CELLS
    ensures maxBuckets * a <= MAX_CHART_QUERY_CELLS
  {
    assert maxBuckets * a <= maxBuckets * b;
  }

  /** The current log of a run is its log at plan time and then rows past the watermark. */
  lemma LogAtPlan(segments: map<nat, seq<Segment>>, run: nat, initial: seq<Segment>, last: nat)
    returns (extra: seq<Row>)
    requires Stored(segments, run, initial, last) && AllTiled(segments)
    ensures LogIn(segments, run) == LogOf(initial) + extra
    ensures LogOf(initial) != [] && Last(LogOf(initial)) == last && First(LogOf(initial)) <= last
    ensures Beyond(extra, last) && First(LogIn(segments, run)) == First(LogOf(initial))
            && last <= Last(LogIn(segments, run))
  {
    hide LogOf, Tiled, Beyond;
    extra := LogGrows(initial, segments[run]);
    LastOfConcat(LogOf(initial), extra);
  }

  lemma CachedExtentIsUncached(segments: map<nat, seq<Segment>>, key: ExtentKey, cached: Option<AxisExtent>,
                               initial: seq<Segment>)
    requires Stored(segments, key.run, initial, key.last) && AllTiled(segments)
    requires ExtentSound(key, cached, LogIn(segments, key.run))
    ensures cached == KeyExtent(LogOf(initial), key.key, key.first, key.last)
  {
    hide *;
    ExtentParts(key, cached, LogIn(segments, key.run));
    var extra := LogAtPlan(segments, key.run, initial, key.last);
    ExtentIgnoresLater(LogOf(initial), extra, key.key, key.first, key.last);
  }

  lemma ScannedExtentIsSound(segments: map<nat, seq<Segment>>, key: ExtentKey, initial: seq<Segment>, extent: Extent)
    requires Stored(segments, key.run, initial, key.last) && AllTiled(segments)
    requires key.first == extent.first && key.last == extent.last && LogOf(initial) != []
             && key.first == First(LogOf(initial))
    ensures ExtentSound(key, KeyExtent(LogOf(initial), key.key, key.first, key.last), LogIn(segments, key.run))
  {
    hide *;
    var extra := LogAtPlan(segments, key.run, initial, key.last);
    ExtentIgnoresLater(LogOf(initial), extra, key.key, key.first, key.last);
    IsExtentSound(key, LogIn(segments, key.run));
  }

  /**
    A cache hit is the uncached series even though its key does not name the first sequence:
    the run's first sequence is the same for every query.
   */
  lemma CachedSeriesIsUncached(segments: map<nat, seq<Segment>>, key: SeriesKey, cached: ChartMetricHistory,
                               initial: seq<Segment>, alignment: Alignment, spec: ChartSpec)
    requires Stored(segments, key.run, initial, spec.last) && AllTiled(segments) && ValidSpec(spec)
    requires key == KeyFor(key.run, key.key, alignment, spec)
    requires LogOf(initial) != [] && spec.first == First(LogOf(initial))
    requires SeriesSound(key, cached, LogIn(segments, key.run))
    ensures cached == KeySeries(LogOf(initial), key.key, spec)
  {
    hide *;
    SeriesParts(key, cached, LogIn(segments, key.run));
    var extra := LogAtPlan(segments, key.run, initial, spec.last);
    KeyNamesSpec(key, alignment, spec);
    SeriesIgnoresLater(LogOf(initial), extra, key.key, spec);
  }

  lemma SampledSeriesIsSound(segments: map<nat, seq<Segment>>, key: SeriesKey, initial: seq<Segment>,
                             alignment: Alignment, spec: ChartSpec)
    requires Stored(segments, key.run, initial, spec.last) && AllTiled(segments) && ValidSpec(spec)
    requires key == KeyFor(key.run, key.key, alignment, spec)
    requires LogOf(initial) != [] && spec.first == First(LogOf(initial))
    ensures SeriesSound(key, KeySeries(LogOf(initial), key.key, spec), LogIn(segments, key.run))
  {
    hide *;
    var extra := LogAtPlan(segments, key.run, initial, spec.last);
    KeyNamesSpec(key, alignment, spec);
    SeriesIgnoresLater(LogOf(initial), extra, key.key, spec);
    IsSeriesSound(key, LogIn(segments, key.run));
  }

  lemma NoKeysYet(rows: seq<Row>, keys: seq<string>, first: nat, last: nat)
    ensures Combine(None, RunAxis(rows, [], first, last)) == RunAxis(rows, keys[..0], first, last)
  {
  }

  lemma NoneScannedYet(rows: seq<Row>, keys: seq<string>, first: nat, last: nat, axis: Option<AxisExtent>)
    ensures axis == Combine(axis, RunAxis(rows, keys[..0], first, last))
  {
  }

  lemma NoMissing(rows: seq<Row>, keys: seq<string>, first: nat, last: nat, axis: Option<AxisExtent>)
    requires keys == []
    ensures axis == Combine(axis, RunAxis(rows, keys, first, last))
  {
  }

  lemma HitKey(rows: seq<Row>, keys: seq<string>, n: nat, first: nat, last: nat, axis: Option<AxisExtent>,
               missing: seq<string>)
    requires n < |keys|
    requires Combine(axis, RunAxis(rows, missing, first, last)) == RunAxis(rows, keys[..n], first, last)
    ensures Combine(Combine(axis, KeyExtent(rows, keys[n], first, last)), RunAxis(rows, missing, first, last))
            == RunAxis(rows, keys[..n + 1], first, last)
  {
    hide RunAxis, KeyExtent, Combine;
    var e, rest := KeyExtent(rows, keys[n], first, last), RunAxis(rows, missing, first, last);
    RunAxisNext(rows, keys, n, first, last);
    CombineLaws(axis, e, rest);
    CombineLaws(axis, rest, e);
    CombineLaws(e, rest, e);
  }

  lemma MissedKey(rows: seq<Row>, keys: seq<string>, n: nat, first: nat, last: nat, axis: Option<AxisExtent>,
                  missing: seq<string>)
    requires n < |keys|
    requires Combine(axis, RunAxis(rows, missing, first, last)) == RunAxis(rows, keys[..n], first, last)
    ensures Combine(axis, RunAxis(rows, missing + [keys[n]], first, last)) == RunAxis(rows, keys[..n + 1], first, last)
  {
    hide RunAxis, KeyExtent, Combine;
    var more := missing + [keys[n]];
    RunAxisNext(rows, keys, n, first, last);
    RunAxisNext(rows, more, |missing|, first, last);
    assert more[..|missing|] == missing && more[..|missing| + 1] == more;
    CombineLaws(axis, RunAxis(rows, missing, first, last), KeyExtent(rows, keys[n], first, last));
  }

  lemma ScannedKey(rows: seq<Row>, missing: seq<string>, n: nat, first: nat, last: nat, axis: Option<AxisExtent>)
    requires n < |missing|
    ensures Combine(Combine(axis, RunAxis(rows, missing[..n], first, last)), KeyExtent(rows, missing[n], first, last))
            == Combine(axis, RunAxis(rows, missing[..n + 1], first, last))
  {
    hide RunAxis, KeyExtent, Combine;
    RunAxisNext(rows, missing, n, first, last);
    CombineLaws(axis, RunAxis(rows, missing[..n], first, last), KeyExtent(rows, missing[n], first, last));
  }

  datatype Plan = Plan(extent: Option<Extent>, axis: Option<AxisExtent>)

  /** What planning a run must find out, said in terms of its log. */
  function PlanOf(request: Request, i: nat, rows: seq<Row>): Plan
    requires i < |request.runs|
  {
    Plan(if rows == [] then None else Some(SegmentCatalog.Extent(First(rows), Last(rows))), AxisAt(request, i, rows))
  }

  /** The run still holds what it held when it was planned. */
  ghost predicate HeldRun(segments: map<nat, seq<Segment>>, run: nat, initial: seq<Segment>) {
    run in segments && initial <= segments[run] && Tiled(initial)
  }

  ghost predicate Held(segments: map<nat, seq<Segment>>, request: Request, initials: seq<seq<Segment>>) {
    |initials| <= |request.runs| && forall i :: 0 <= i < |initials| ==>
        HeldRun(segments, request.runs[i].run, initials[i])
  }

  lemma RunHasKeys(request: Request, i: nat)
    requires ValidRequest(request) && i < |request.runs|
    ensures request.runs[i].keys != []
  {
  }

  lemma CurrentIsHeld(segments: map<nat, seq<Segment>>, run: nat)
    requires AllTiled(segments) && run in segments
    ensures HeldRun(segments, run, segments[run]) && Tiled(segments[run])
  {
    hide Tiled;
  }

  lemma CurrentIsStored(segments: map<nat, seq<Segment>>, run: nat, last: nat)
    requires run in segments && segments[run] != [] && segments[run][|segments[run]| - 1].last == last
    ensures Stored(segments, run, segments[run], last)
  {
  }

  lemma PlanIs(request: Request, i: nat, rows: seq<Row>, plan: Plan)
    requires i < |request.runs|
    requires plan.extent == if rows == [] then None else Some(SegmentCatalog.Extent(First(rows), Last(rows)))
    requires plan.axis == if NeedsAxis(request) && rows != []
                          then RunAxis(rows, request.runs[i].keys, First(rows), Last(rows)) else None
    ensures plan == PlanOf(request, i, rows)
  {
  }

  lemma NoneHeld(segments: map<nat, seq<Segment>>, request: Request)
    ensures Held(segments, request, [])
  {
  }

  lemma OneHeld(segments: map<nat, seq<Segment>>, request: Request, initials: seq<seq<Segment>>, i: nat)
    requires Held(segments, request, initials) && i < |initials|
    ensures HeldRun(segments, request.runs[i].run, initials[i])
  {
  }

  lemma AllBegan(before: map<nat, seq<Segment>>, request: Request, initials: seq<seq<Segment>>)
    requires |initials| == |request.runs|
    requires forall i :: 0 <= i < |initials| ==>
               request.runs[i].run in before && before[request.runs[i].run] <= initials[i]
    ensures Began(before, request, initials)
  {
  }

  lemma IsAnswer(request: Request, i: nat, initial: seq<Segment>, x: Range, histories: seq<ChartMetricHistory>)
    requires ValidRequest(request) && i < |request.runs| && x.minimum <= x.maximum && OrderedLogs([LogOf(initial)])
    requires |histories| == |request.runs[i].keys|
    requires forall j :: 0 <= j < |histories| ==> histories[j] == AnswerAt(request, i, j, LogOf(initial), x)
    ensures AnswersRun(request, i, initial, x, histories)
  {
  }

  lemma HeldLater(before: map<nat, seq<Segment>>, after: map<nat, seq<Segment>>, run: nat, initial: seq<Segment>)
    requires Grew(before, after) && HeldRun(before, run, initial)
    ensures HeldRun(after, run, initial)
  {
  }

  lemma AllHeldLater(before: map<nat, seq<Segment>>, after: map<nat, seq<Segment>>, request: Request,
                     initials: seq<seq<Segment>>, initial: seq<Segment>)
    requires Grew(before, after) && Held(before, request, initials) && |initials| < |request.runs|
    requires HeldRun(after, request.runs[|initials|].run, initial)
    ensures Held(after, request, initials + [initial])
  {
    hide HeldRun, Grew;
    forall i | 0 <= i < |initials|
      ensures HeldRun(after, request.runs[i].run, initials[i])
    {
      HeldLater(before, after, request.runs[i].run, initials[i]);
    }
  }

  /** The metric extent is the range of the log. */
  lemma WatermarkOfLog(initial: seq<Segment>)
    requires Tiled(initial)
    ensures var rows := LogOf(initial);
            ExtentAfter(initial, None) == if rows == [] then None
              else Some(SegmentCatalog.Extent(First(rows), Last(rows)))
    ensures initial == [] <==> LogOf(initial) == []
    ensures initial != [] ==>
              initial[|initial| - 1].last == Last(LogOf(initial)) && First(LogOf(initial)) <= Last(LogOf(initial))
  {
    hide Tiled;
    if initial == [] {
      assert Paths(initial) == [];
    } else {
      EndsOfLog(initial);
      hide LogOf;
      ExtentOfTiled(initial, None);
    }
  }

  function AnswerAt(request: Request, i: nat, j: nat, rows: seq<Row>, x: Range): ChartMetricHistory
    requires ValidRequest(request) && i < |request.runs| && j < |request.runs[i].keys| && x.minimum <= x.maximum
    requires OrderedLogs([rows])
  {
    assert [rows][0] == rows;
    SeriesAt(request, rows, request.runs[i].keys[j], AxisAt(request, i, rows), x)
  }

  lemma NothingToSample(request: Request, i: nat, rows: seq<Row>, x: Range, plan: Plan)
    requires ValidRequest(request) && i < |request.runs| && x.minimum <= x.maximum && OrderedLogs([rows])
    requires plan == PlanOf(request, i, rows) && (plan.extent.None? || CoordinateOf(request.alignment, plan.axis).None?)
    ensures forall j :: 0 <= j < |request.runs[i].keys| ==> AnswerAt(request, i, j, rows, x) == EMPTY_SERIES
  {
  }

  lemma PlannedSpec(segments: map<nat, seq<Segment>>, request: Request, i: nat, plan: Plan, x: Range,
                    initial: seq<Segment>, spec: ChartSpec)
    requires ValidRequest(request) && i < |request.runs| && x.minimum <= x.maximum && OrderedLogs([LogOf(initial)])
    requires HeldRun(segments, request.runs[i].run, initial) && plan == PlanOf(request, i, LogOf(initial))
    requires plan.extent.Some? && CoordinateOf(request.alignment, plan.axis) == Some(spec.coordinate)
    requires spec == ChartSpec(plan.extent.value.first, plan.extent.value.last, spec.coordinate,
                               x.minimum, x.maximum, request.maxBuckets)
    ensures LogOf(initial) != [] && spec.first == First(LogOf(initial)) && spec.last == Last(LogOf(initial))
            && ValidSpec(spec)
    ensures Stored(segments, request.runs[i].run, initial, spec.last)
    ensures spec.maxBuckets * |request.runs[i].keys| <= MAX_CHART_QUERY_CELLS
    ensures forall j :: 0 <= j < |request.runs[i].keys| ==>
              AnswerAt(request, i, j, LogOf(initial), x) == KeySeries(LogOf(initial), request.runs[i].keys[j], spec)
  {
    hide LogOf, RunAxis, KeySeries, Tiled;
    WatermarkOfLog(initial);
    assert [LogOf(initial)][0] == LogOf(initial);
    RunKeysBound(request.runs, i);
    FewerKeys(request.maxBuckets, |request.runs[i].keys|, TotalKeys(request.runs));
  }

  lemma {:induction false} RunKeysBound(runs: seq<RunRequest>, i: nat)
    requires i < |runs|
    ensures |runs[i].keys| <= TotalKeys(runs)
    decreases |runs|
  {
    if i < |runs| - 1 { RunKeysBound(runs[..|runs| - 1], i); }
  }

  function AxesOf(plans: seq<Plan>): (axes: seq<Option<AxisExtent>>)
    requires forall i :: 0 <= i < |plans| ==> OrderedIfAny(plans[i].axis)
    ensures |axes| == |plans| && forall i :: 0 <= i < |axes| ==> axes[i] == plans[i].axis && OrderedIfAny(axes[i])
  {
    seq(|plans|, i requires 0 <= i < |plans| => plans[i].axis)
  }

  function Logs(initials: seq<seq<Segment>>): (logs: seq<seq<Row>>)
    ensures |logs| == |initials| && forall i :: 0 <= i < |logs| ==> logs[i] == LogOf(initials[i])
  {
    seq(|initials|, i requires 0 <= i < |initials| => LogOf(initials[i]))
  }

  /** Each run was planned no earlier than the query began. */
  ghost predicate Began(before: map<nat, seq<Segment>>, request: Request, initials: seq<seq<Segment>>) {
    |initials| == |request.runs| && forall i :: 0 <= i < |initials| ==>
      request.runs[i].run in before && before[request.runs[i].run] <= initials[i]
  }

  ghost predicate AnswersRun(request: Request, i: nat, initial: seq<Segment>, x: Range,
                             histories: seq<ChartMetricHistory>)
    requires ValidRequest(request) && i < |request.runs| && x.minimum <= x.maximum
  {
    && OrderedLogs([LogOf(initial)]) && |histories| == |request.runs[i].keys|
    && forall j :: 0 <= j < |histories| ==> histories[j] == AnswerAt(request, i, j, LogOf(initial), x)
  }

  lemma OneOrdered(initials: seq<seq<Segment>>, i: nat)
    requires i < |initials| && OrderedLogs(Logs(initials))
    ensures OrderedLogs([LogOf(initials[i])])
  {
    hide LogOf;
    assert Logs(initials)[i] == LogOf(initials[i]);
  }

  lemma StillHeld(before: map<nat, seq<Segment>>, after: map<nat, seq<Segment>>, request: Request,
                  initials: seq<seq<Segment>>)
    requires Grew(before, after) && Held(before, request, initials)
    ensures Held(after, request, initials)
  {
    hide Tiled;
  }

  lemma HeldIsTiled(segments: map<nat, seq<Segment>>, request: Request, initials: seq<seq<Segment>>)
    requires Held(segments, request, initials)
    ensures forall i :: 0 <= i < |initials| ==> Tiled(initials[i])
  {
    hide Tiled;
  }

  lemma CountIsNat(request: Request, x: Range)
    requires ValidRequest(request) && x.minimum <= x.maximum
    ensures Min(x.maximum - x.minimum + 1, request.maxBuckets) >= 0
  {
  }

  /** The plans say exactly what the logs at plan time say. */
  lemma PlanFacts(request: Request, plans: seq<Plan>, initials: seq<seq<Segment>>)
    requires ValidRequest(request) && |plans| == |initials| == |request.runs|
    requires forall i :: 0 <= i < |initials| ==> Tiled(initials[i])
    requires forall i :: 0 <= i < |plans| ==> plans[i] == PlanOf(request, i, LogOf(initials[i]))
    ensures OrderedLogs(Logs(initials))
    ensures forall i :: 0 <= i < |plans| ==> OrderedIfAny(plans[i].axis)
    ensures AxesOf(plans) == AxesAt(request, Logs(initials))
    ensures XOfQuery(request, Logs(initials))
            == if request.viewport.Some? then request.viewport else XExtent(request.alignment, AxesOf(plans))
    ensures forall i :: 0 <= i < |plans| ==>
              plans[i].extent == if LogOf(initials[i]) == [] then None
                                 else Some(SegmentCatalog.Extent(First(LogOf(initials[i])), Last(LogOf(initials[i]))))
  {
    hide LogOf, Tiled, RunAxis, XExtent, ValidRequest;
    var logs := Logs(initials);
    forall i | 0 <= i < |plans|
      ensures logs[i] != [] ==> First(logs[i]) <= Last(logs[i])
      ensures OrderedIfAny(plans[i].axis) && plans[i].axis == AxesAt(request, logs)[i]
    {
      WatermarkOfLog(initials[i]);
    }
    assert AxesOf(plans) == AxesAt(request, logs);
  }

  lemma EmptyAnswer(request: Request, initials: seq<seq<Segment>>, response: Response)
    requires ValidRequest(request) && |initials| == |request.runs| && OrderedLogs(Logs(initials))
    requires response.x.None? && response.x == XOfQuery(request, Logs(initials)) && response.bucketCount == 0
    requires |response.watermarks| == |initials| && forall i :: 0 <= i < |initials| ==>
               response.watermarks[i] == if LogOf(initials[i]) == [] then None else Some(Last(LogOf(initials[i])))
    requires |response.series| == |initials| && forall i :: 0 <= i < |initials| ==>
               && |response.series[i]| == |request.runs[i].keys|
               && forall j :: 0 <= j < |response.series[i]| ==> response.series[i][j] == EMPTY_SERIES
    ensures IsUncached(request, Logs(initials), response)
  {
    hide LogOf, XOfQuery, ValidRequest, OrderedLogs;
  }

  lemma FullAnswer(request: Request, initials: seq<seq<Segment>>, response: Response)
    requires ValidRequest(request) && |initials| == |request.runs| && OrderedLogs(Logs(initials))
    requires response.x.Some? && response.x == XOfQuery(request, Logs(initials))
    requires response.bucketCount == Min(response.x.value.maximum - response.x.value.minimum + 1, request.maxBuckets)
    requires |response.watermarks| == |initials| && forall i :: 0 <= i < |initials| ==>
               response.watermarks[i] == if LogOf(initials[i]) == [] then None else Some(Last(LogOf(initials[i])))
    requires |response.series| == |initials| && forall i :: 0 <= i < |initials| ==>
               AnswersRun(request, i, initials[i], response.x.value, response.series[i])
    ensures IsUncached(request, Logs(initials), response)
  {
    hide LogOf, XOfQuery, ValidRequest, OrderedLogs, SeriesAt;
    forall i, j | 0 <= i < |initials| && 0 <= j < |request.runs[i].keys|
      ensures |response.series[i]| == |request.runs[i].keys|
      ensures response.series[i][j] == ExpectedSeries(request, Logs(initials), i, j)
    {
      assert AnswersRun(request, i, initials[i], response.x.value, response.series[i]);
      assert Logs(initials)[i] == LogOf(initials[i]);
    }
    assert forall i :: 0 <= i < |initials| ==>
             AnswersRun(request, i, initials[i], response.x.value, response.series[i]);
  }

  lemma TiledInOrder(initial: seq<Segment>)
    requires Tiled(initial)
    ensures InOrder(LogOf(initial))
  {
    if initial != [] {
      hide LogOf, Tiled;
      TiledLogIsConsecutive(initial);
    }
  }

  /** The uncached answer shows the rows of the runs. */
  lemma AnswerIsChart(request: Request, initials: seq<seq<Segment>>, response: Response)
    requires ValidRequest(request) && IsUncached(request, Logs(initials), response)
    requires forall i :: 0 <= i < |initials| ==> Tiled(initials[i])
    ensures IsChart(request, Logs(initials), response)
  {
    hide IsUncached, IsChart, ValidRequest, InOrder, Tiled, LogOf;
    forall i | 0 <= i < |initials|
      ensures InOrder(Logs(initials)[i])
    {
      TiledInOrder(initials[i]);
    }
    UncachedIsChart(request, Logs(initials), response);
  }
}

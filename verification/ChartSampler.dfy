/** Chart aggregation: every metric and bucket keeps the minimum, the maximum and the newest sample in view. */
module ChartSampler {
  import opened Wrappers
  import opened MinMaxSampler
  import opened Parts

  const MAX_CHART_BUCKETS: nat := 2000
  const MAX_CHART_QUERY_CELLS: nat := 20000

  datatype ChartCoordinate = StepAxis | RelativeStep(origin: nat) | ElapsedTime(originMs: int)

  datatype Range = Range(minimum: nat, maximum: nat)

  datatype ChartSpec = ChartSpec(first: nat, last: nat, coordinate: ChartCoordinate, xMin: nat, xMax: nat,
                                 maxBuckets: nat)

  datatype ChartBucket = ChartBucket(
    minimum: real, maximum: real,
    lastSequence: nat, lastX: nat, lastStep: nat, lastTimestamp: int, last: real)

  function Lesser(a: real, b: real): real { if b < a then b else a }

  function Greater(a: real, b: real): real { if b > a then b else a }

  function SaturatingAdd(a: nat, b: nat): nat {
    if a + b > U64_MAX then U64_MAX else a + b
  }

  /** Where a sample lies on the chart's axis, if anywhere. */
  function XOf(coordinate: ChartCoordinate, step: nat, timestamp: int): Option<nat> {
    match coordinate
    case StepAxis => Some(step)
    case RelativeStep(origin) => if origin <= step then Some(step - origin) else None
    case ElapsedTime(origin) =>
      if origin <= timestamp && timestamp - origin <= U64_MAX then Some(timestamp - origin) else None
  }

  /** The steps that can be in view, when the axis is a function of the step. */
  function StepViewport(coordinate: ChartCoordinate, xMin: nat, xMax: nat): Option<Range> {
    match coordinate
    case StepAxis => Some(Range(xMin, xMax))
    case RelativeStep(origin) => Some(Range(SaturatingAdd(origin, xMin), SaturatingAdd(origin, xMax)))
    case ElapsedTime(_) => None
  }

  predicate ValidSpec(spec: ChartSpec) {
    spec.first <= spec.last && spec.xMin <= spec.xMax && 0 < spec.maxBuckets <= MAX_CHART_BUCKETS
  }

  /** How many values the axis range has. */
  function Span(spec: ChartSpec): (n: nat)
    requires ValidSpec(spec)
    ensures n == spec.xMax - spec.xMin + 1 > 0
  {
    spec.xMax - spec.xMin + 1
  }

  /** As many buckets as wanted, but no more than the range has values. */
  function BucketCount(spec: ChartSpec): (n: nat)
    requires ValidSpec(spec)
    ensures 0 < n <= spec.maxBuckets && n <= Span(spec) && (n == spec.maxBuckets || n == Span(spec))
  {
    Min(Span(spec), spec.maxBuckets)
  }

  /** The sample's position if it is inside the sequence extent and the viewport. */
  function InView(spec: ChartSpec, s: Sample): Option<nat> {
    if s.sequence < spec.first || s.sequence > spec.last then None
    else
      match XOf(spec.coordinate, s.step, s.timestamp)
      case None => None
      case Some(x) => if x < spec.xMin || x > spec.xMax then None else Some(x)
  }

  /** The axis value falls into bucket `b`: the range is cut into equal parts. */
  predicate InBucket(spec: ChartSpec, x: nat, b: nat)
    requires ValidSpec(spec)
  {
    spec.xMin <= x <= spec.xMax && InPart(x - spec.xMin, Span(spec), BucketCount(spec), b)
  }

  function BucketIndex(spec: ChartSpec, x: nat): (b: nat)
    requires ValidSpec(spec) && spec.xMin <= x <= spec.xMax
    ensures b < BucketCount(spec)
  {
    PartOf(x - spec.xMin, Span(spec), BucketCount(spec))
  }

  /** Every axis value in range falls into exactly the bucket computed for it. */
  lemma OnlyBucket(spec: ChartSpec, x: nat)
    requires ValidSpec(spec) && spec.xMin <= x <= spec.xMax
    ensures forall b: nat :: InBucket(spec, x, b) <==> b == BucketIndex(spec, x)
  {
    hide InPart, PartOf;
    OnlyPart(x - spec.xMin, Span(spec), BucketCount(spec));
  }

  // --------------------------------------------------------- specification

  /** Sample `s` contributes to the cell of metric `m` and bucket `b`. */
  predicate Hits(spec: ChartSpec, s: Sample, m: nat, b: nat)
    requires ValidSpec(spec) && m < |s.values|
  {
    && s.values[m].Some? && InView(spec, s).Some? && InBucket(spec, InView(spec, s).value, b)
  }

  /**
    The cell holds the least and greatest value of the contributing samples, and the
    position and value of the one with the greatest sequence; it is empty if there are none.
   */
  ghost predicate IsCell(samples: seq<Sample>, metrics: nat, spec: ChartSpec, m: nat, b: nat, cell: Option<ChartBucket>)
    requires Shaped(samples, metrics) && m < metrics && ValidSpec(spec)
  {
    match cell
    case None => forall s :: s in samples ==> !Hits(spec, s, m, b)
    case Some(c) =>
      && (forall s :: s in samples && Hits(spec, s, m, b) ==>
            c.minimum <= s.values[m].value <= c.maximum && s.sequence <= c.lastSequence)
      && (exists s :: s in samples && Hits(spec, s, m, b) && s.values[m].value == c.minimum)
      && (exists s :: s in samples && Hits(spec, s, m, b) && s.values[m].value == c.maximum)
      && (exists s :: s in samples && Hits(spec, s, m, b)
            && c == ChartBucket(c.minimum, c.maximum, s.sequence, InView(spec, s).value, s.step, s.timestamp,
                                s.values[m].value))
  }

  /** How many samples contribute to metric `m`. */
  function Points(samples: seq<Sample>, metrics: nat, spec: ChartSpec, m: nat): nat
    requires Shaped(samples, metrics) && m < metrics
  {
    if samples == [] then 0
    else
      var n := |samples| - 1;
      Points(samples[..n], metrics, spec, m)
      + if samples[n].values[m].Some? && InView(spec, samples[n]).Some? then 1 else 0
  }

  // -------------------------------------------------------- streaming form

  function StartCell(s: Sample, x: nat, value: real): ChartBucket {
    ChartBucket(value, value, s.sequence, x, s.step, s.timestamp, value)
  }

  function ExtendCell(c: ChartBucket, s: Sample, x: nat, value: real): ChartBucket {
    var bounds := c.(minimum := Lesser(c.minimum, value), maximum := Greater(c.maximum, value));
    if s.sequence >= c.lastSequence
    then bounds.(lastSequence := s.sequence, lastX := x, lastStep := s.step, lastTimestamp := s.timestamp,
                 last := value)
    else bounds
  }

  function NextCell(cell: Option<ChartBucket>, s: Sample, spec: ChartSpec, m: nat, b: nat): Option<ChartBucket>
    requires ValidSpec(spec) && m < |s.values|
  {
    if !Hits(spec, s, m, b) then cell
    else
      var x, value := InView(spec, s).value, s.values[m].value;
      Some(if cell.None? then StartCell(s, x, value) else ExtendCell(cell.value, s, x, value))
  }

  function Cell(samples: seq<Sample>, metrics: nat, spec: ChartSpec, m: nat, b: nat): Option<ChartBucket>
    requires Shaped(samples, metrics) && m < metrics && ValidSpec(spec)
  {
    if samples == [] then None
    else NextCell(Cell(samples[..|samples| - 1], metrics, spec, m, b), samples[|samples| - 1], spec, m, b)
  }

  /** Folding the samples in any order yields the declared cell. */
  lemma {:induction false} CellIsFound(samples: seq<Sample>, metrics: nat, spec: ChartSpec, m: nat, b: nat)
    requires Shaped(samples, metrics) && m < metrics && ValidSpec(spec)
    ensures IsCell(samples, metrics, spec, m, b, Cell(samples, metrics, spec, m, b))
    decreases |samples|
  {
    hide InBucket, XOf;
    if samples != [] {
      var n := |samples| - 1;
      CellIsFound(samples[..n], metrics, spec, m, b);
      NextIsCell(samples[..n], samples[n], metrics, spec, m, b, Cell(samples[..n], metrics, spec, m, b));
      assert samples == samples[..n] + [samples[n]];
    }
  }

  lemma NextIsCell(samples: seq<Sample>, s: Sample, metrics: nat, spec: ChartSpec, m: nat, b: nat,
                   cell: Option<ChartBucket>)
    requires Shaped(samples, metrics) && |s.values| == metrics && m < metrics && ValidSpec(spec)
    requires IsCell(samples, metrics, spec, m, b, cell)
    ensures Shaped(samples + [s], metrics)
    ensures IsCell(samples + [s], metrics, spec, m, b, NextCell(cell, s, spec, m, b))
  {
    hide InBucket, XOf, InView;
    assert s in samples + [s];
    if Hits(spec, s, m, b) && cell.Some? {
      var c := cell.value;
      var low :| low in samples && Hits(spec, low, m, b) && low.values[m].value == c.minimum;
      var high :| high in samples && Hits(spec, high, m, b) && high.values[m].value == c.maximum;
      var newest :| newest in samples && Hits(spec, newest, m, b)
        && c == ChartBucket(c.minimum, c.maximum, newest.sequence, InView(spec, newest).value, newest.step,
                            newest.timestamp, newest.values[m].value);
      assert low in samples + [s] && high in samples + [s] && newest in samples + [s];
    } else if cell.Some? {
      var c := cell.value;
      var low :| low in samples && Hits(spec, low, m, b) && low.values[m].value == c.minimum;
      var high :| high in samples && Hits(spec, high, m, b) && high.values[m].value == c.maximum;
      var newest :| newest in samples && Hits(spec, newest, m, b)
        && c == ChartBucket(c.minimum, c.maximum, newest.sequence, InView(spec, newest).value, newest.step,
                            newest.timestamp, newest.values[m].value);
      assert low in samples + [s] && high in samples + [s] && newest in samples + [s];
    }
  }

  ghost predicate UniqueSequences(samples: seq<Sample>) {
    forall s, t :: s in samples && t in samples && s.sequence == t.sequence ==> s == t
  }

  /** The order of observation does not matter: the same samples give the same cell. */
  lemma CellIsOrderFree(a: seq<Sample>, c: seq<Sample>, metrics: nat, spec: ChartSpec, m: nat, b: nat)
    requires Shaped(a, metrics) && Shaped(c, metrics) && m < metrics && ValidSpec(spec)
    requires UniqueSequences(a) && forall s :: s in a <==> s in c
    ensures Cell(a, metrics, spec, m, b) == Cell(c, metrics, spec, m, b)
  {
    hide Cell, Hits, InView;
    CellIsFound(a, metrics, spec, m, b);
    CellIsFound(c, metrics, spec, m, b);
    CellIsUnique(a, c, metrics, spec, m, b, Cell(a, metrics, spec, m, b), Cell(c, metrics, spec, m, b));
  }

  lemma CellIsUnique(a: seq<Sample>, c: seq<Sample>, metrics: nat, spec: ChartSpec, m: nat, b: nat,
                     x: Option<ChartBucket>, y: Option<ChartBucket>)
    requires Shaped(a, metrics) && Shaped(c, metrics) && m < metrics && ValidSpec(spec)
    requires UniqueSequences(a) && forall s :: s in a <==> s in c
    requires IsCell(a, metrics, spec, m, b, x) && IsCell(c, metrics, spec, m, b, y)
    ensures x == y
  {
    hide InBucket, XOf, InView;
  }

  function One(spec: ChartSpec, s: Sample, m: nat): nat
    requires m < |s.values|
  {
    if s.values[m].Some? && InView(spec, s).Some? then 1 else 0
  }

  lemma {:induction false} PointsWithout(samples: seq<Sample>, metrics: nat, spec: ChartSpec, m: nat, k: nat)
    requires Shaped(samples, metrics) && m < metrics && k < |samples|
    ensures Shaped(samples[..k] + samples[k + 1..], metrics)
    ensures Points(samples, metrics, spec, m)
            == Points(samples[..k] + samples[k + 1..], metrics, spec, m) + One(spec, samples[k], m)
    decreases |samples|
  {
    var n := |samples| - 1;
    var less := samples[..k] + samples[k + 1..];
    PointsOfLast(samples, metrics, spec, m);
    if k < n {
      hide InView, Points, One;
      PointsWithout(samples[..n], metrics, spec, m, k);
      assert less[..n - 1] == samples[..n][..k] + samples[..n][k + 1..];
      assert less[n - 1] == samples[n];
      PointsOfLast(less, metrics, spec, m);
    } else {
      assert less == samples[..n];
    }
  }

  lemma PointsOfLast(samples: seq<Sample>, metrics: nat, spec: ChartSpec, m: nat)
    requires Shaped(samples, metrics) && m < metrics && samples != []
    ensures var n := |samples| - 1;
            Points(samples, metrics, spec, m) == Points(samples[..n], metrics, spec, m) + One(spec, samples[n], m)
  {
    hide InView;
  }

  /** Point counts are exact whatever the order of observation. */
  lemma {:induction false} PointsAreOrderFree(a: seq<Sample>, c: seq<Sample>, metrics: nat, spec: ChartSpec, m: nat)
    requires Shaped(a, metrics) && Shaped(c, metrics) && m < metrics && multiset(a) == multiset(c)
    ensures Points(a, metrics, spec, m) == Points(c, metrics, spec, m)
    decreases |a|
  {
    hide *;
    SameLength(a, c);
    if a == [] {
      assert c == [];
    } else {
      var n := |a| - 1;
      var k := MatchLast(a, c);
      PointsWithout(c, metrics, spec, m, k);
      PointsWithout(a, metrics, spec, m, n);
      assert a[..n] + a[n + 1..] == a[..n];
      PointsAreOrderFree(a[..n], c[..k] + c[k + 1..], metrics, spec, m);
    }
  }

  lemma SameLength(a: seq<Sample>, c: seq<Sample>)
    requires multiset(a) == multiset(c)
    ensures |a| == |c|
  {
    assert |multiset(a)| == |a| && |multiset(c)| == |c|;
  }

  lemma MatchLast(a: seq<Sample>, c: seq<Sample>) returns (k: nat)
    requires a != [] && multiset(a) == multiset(c)
    ensures k < |c| && c[k] == a[|a| - 1]
    ensures multiset(a[..|a| - 1]) == multiset(c[..k] + c[k + 1..])
  {
    var n := |a| - 1;
    assert a[n] in multiset(a);
    k :| 0 <= k < |c| && c[k] == a[n];
    assert a == a[..n] + [a[n]];
    SplitAt(c, k);
    assert multiset(a[..n]) == multiset(a) - multiset{a[n]};
  }

  lemma SplitAt(c: seq<Sample>, k: nat)
    requires k < |c|
    ensures multiset(c[..k] + c[k + 1..]) == multiset(c) - multiset{c[k]}
  {
    assert c == c[..k] + ([c[k]] + c[k + 1..]);
    assert multiset(c) == multiset(c[..k]) + multiset([c[k]] + c[k + 1..]);
  }

  // ----------------------------------------------------- row-group pruning

  datatype Statistics =
    | Missing
    | Deprecated
    | OtherType
    | Bounds(minimumExact: bool, maximumExact: bool, minimum: Option<int>, maximum: Option<int>)

  datatype RowGroup = RowGroup(rows: seq<Sample>, statistics: Statistics)

  /** Both bounds are there, exact and readable as unsigned numbers. */
  predicate Usable(s: Statistics) {
    && s.Bounds? && s.minimumExact && s.maximumExact && s.minimum.Some? && s.maximum.Some?
    && s.minimum.value >= 0 && s.maximum.value >= 0
  }

  /** Usable bounds do bound this step. */
  predicate TrueOf(s: Statistics, step: nat) {
    Usable(s) ==> s.minimum.value <= step <= s.maximum.value
  }

  ghost predicate Truthful(g: RowGroup) {
    forall i :: 0 <= i < |g.rows| ==> TrueOf(g.statistics, g.rows[i].step)
  }

  /** `row_group_may_overlap_step_range` */
  predicate MayOverlap(statistics: Statistics, stepMin: nat, stepMax: nat) {
    if !statistics.Bounds? then true
    else if !statistics.minimumExact || !statistics.maximumExact then true
    else if statistics.minimum.None? || statistics.maximum.None? then true
    else if statistics.minimum.value < 0 || statistics.maximum.value < 0 then true
    else if statistics.minimum.value > statistics.maximum.value then true
    else statistics.maximum.value >= stepMin && statistics.minimum.value <= stepMax
  }

  /** A row group is skipped exactly when usable bounds leave room for steps, but for none in the viewport. */
  lemma SkippedIff(s: Statistics, stepMin: nat, stepMax: nat)
    requires stepMin <= stepMax
    ensures !MayOverlap(s, stepMin, stepMax) <==>
            && Usable(s) && s.minimum.value <= s.maximum.value
            && forall step: nat :: TrueOf(s, step) ==> step < stepMin || stepMax < step
  {
    if Usable(s) && s.minimum.value <= s.maximum.value {
      var step := Max(s.minimum.value, stepMin);
      assert TrueOf(s, step) <==> step <= s.maximum.value;
    }
  }

  /** Nothing in a rejected row group is in view, even where the viewport saturates. */
  lemma RejectedIsOutOfView(spec: ChartSpec, g: RowGroup, i: nat)
    requires Truthful(g) && i < |g.rows| && g.rows[i].step <= U64_MAX
    requires var viewport := StepViewport(spec.coordinate, spec.xMin, spec.xMax);
             viewport.Some? && !MayOverlap(g.statistics, viewport.value.minimum, viewport.value.maximum)
    ensures InView(spec, g.rows[i]).None?
  {
  }

  ghost predicate AllOutOfView(spec: ChartSpec, rows: seq<Sample>) {
    forall i :: 0 <= i < |rows| ==> InView(spec, rows[i]).None?
  }

  /** Samples out of view change no cell and no count. */
  lemma {:induction false} OutOfViewIsInvisible(samples: seq<Sample>, rows: seq<Sample>, metrics: nat, spec: ChartSpec)
    requires Shaped(samples, metrics) && Shaped(rows, metrics) && ValidSpec(spec) && AllOutOfView(spec, rows)
    ensures Shaped(samples + rows, metrics)
    ensures forall m: nat, b: nat :: m < metrics ==>
              Cell(samples + rows, metrics, spec, m, b) == Cell(samples, metrics, spec, m, b)
    ensures forall m: nat :: m < metrics ==>
              Points(samples + rows, metrics, spec, m) == Points(samples, metrics, spec, m)
    ensures Rows(samples + rows, spec) == Rows(samples, spec)
    decreases |rows|
  {
    hide InView;
    if rows == [] {
      assert samples + rows == samples;
    } else {
      var n := |rows| - 1;
      OutOfViewIsInvisible(samples, rows[..n], metrics, spec);
      assert (samples + rows)[..|samples + rows| - 1] == samples + rows[..n];
      assert (samples + rows)[|samples + rows| - 1] == rows[n];
    }
  }

  /** How many samples in view carry some requested metric. */
  ghost function Rows(samples: seq<Sample>, spec: ChartSpec): nat {
    if samples == [] then 0
    else
      var n := |samples| - 1;
      Rows(samples[..n], spec) + if InView(spec, samples[n]).Some? && HasSome(samples[n]) then 1 else 0
  }

  ghost function RowsInSight(samples: seq<Sample>, spec: ChartSpec): set<nat> {
    set i | 0 <= i < |samples| && InView(spec, samples[i]).Some? && HasSome(samples[i])
  }

  lemma {:induction false} RowsAreInSight(samples: seq<Sample>, spec: ChartSpec)
    ensures Rows(samples, spec) == |RowsInSight(samples, spec)|
    decreases |samples|
  {
    hide InView, HasSome;
    if samples != [] {
      var n := |samples| - 1;
      RowsAreInSight(samples[..n], spec);
      var before := RowsInSight(samples[..n], spec);
      if InView(spec, samples[n]).Some? && HasSome(samples[n]) {
        assert RowsInSight(samples, spec) == before + {n};
      } else {
        assert RowsInSight(samples, spec) == before;
      }
    }
  }

  ghost predicate HasSome(s: Sample) {
    exists m :: 0 <= m < |s.values| && s.values[m].Some?
  }

  // --------------------------------------------------------------- results

  /** One metric's chart: the point count and the non-empty buckets in axis order. */
  datatype ChartMetricHistory = ChartMetricHistory(sourcePoints: nat, cells: seq<(nat, ChartBucket)>)

  function CellsBelow(samples: seq<Sample>, metrics: nat, spec: ChartSpec, m: nat, n: nat): seq<(nat, ChartBucket)>
    requires Shaped(samples, metrics) && m < metrics && ValidSpec(spec)
  {
    if n == 0 then []
    else
      var cell := Cell(samples, metrics, spec, m, n - 1);
      CellsBelow(samples, metrics, spec, m, n - 1) + if cell.Some? then [(n - 1, cell.value)] else []
  }

  function SeriesOf(samples: seq<Sample>, metrics: nat, spec: ChartSpec, m: nat): ChartMetricHistory
    requires Shaped(samples, metrics) && m < metrics && ValidSpec(spec)
  {
    ChartMetricHistory(Min(Points(samples, metrics, spec, m), U64_MAX),
                       CellsBelow(samples, metrics, spec, m, BucketCount(spec)))
  }

  // ------------------------------------------------- the result, declared

  /** The samples of a metric that are in view, by position. */
  ghost function InSight(samples: seq<Sample>, metrics: nat, spec: ChartSpec, m: nat): set<nat>
    requires Shaped(samples, metrics) && m < metrics
  {
    set i | 0 <= i < |samples| && samples[i].values[m].Some? && InView(spec, samples[i]).Some?
  }

  lemma {:induction false} PointsAreInSight(samples: seq<Sample>, metrics: nat, spec: ChartSpec, m: nat)
    requires Shaped(samples, metrics) && m < metrics
    ensures Points(samples, metrics, spec, m) == |InSight(samples, metrics, spec, m)|
    decreases |samples|
  {
    hide InView;
    if samples != [] {
      var n := |samples| - 1;
      PointsAreInSight(samples[..n], metrics, spec, m);
      var before := InSight(samples[..n], metrics, spec, m);
      if samples[n].values[m].Some? && InView(spec, samples[n]).Some? {
        assert InSight(samples, metrics, spec, m) == before + {n};
      } else {
        assert InSight(samples, metrics, spec, m) == before;
      }
    }
  }

  /** The number of samples in view, and exactly the buckets that have any, in order, with what they must hold. */
  ghost predicate IsSeries(samples: seq<Sample>, metrics: nat, spec: ChartSpec, m: nat, h: ChartMetricHistory)
    requires Shaped(samples, metrics) && m < metrics && ValidSpec(spec)
  {
    && h.sourcePoints == Min(|InSight(samples, metrics, spec, m)|, U64_MAX)
    && ListsCells(samples, metrics, spec, m, h.cells, BucketCount(spec))
  }

  ghost predicate ListsCells(samples: seq<Sample>, metrics: nat, spec: ChartSpec, m: nat,
                             cells: seq<(nat, ChartBucket)>,
                             n: nat)
    requires Shaped(samples, metrics) && m < metrics && ValidSpec(spec)
  {
    && (forall i, j :: 0 <= i < j < |cells| ==> cells[i].0 < cells[j].0)
    && (forall i :: 0 <= i < |cells| ==>
          cells[i].0 < n && IsCell(samples, metrics, spec, m, cells[i].0, Some(cells[i].1)))
    && forall b: nat :: b < n && (forall i :: 0 <= i < |cells| ==> cells[i].0 != b) ==>
         IsCell(samples, metrics, spec, m, b, None)
  }

  lemma {:induction false} CellsAreListed(samples: seq<Sample>, metrics: nat, spec: ChartSpec, m: nat, n: nat)
    requires Shaped(samples, metrics) && m < metrics && ValidSpec(spec)
    ensures ListsCells(samples, metrics, spec, m, CellsBelow(samples, metrics, spec, m, n), n)
  {
    hide IsCell, Cell;
    if n > 0 {
      CellsAreListed(samples, metrics, spec, m, n - 1);
      CellIsFound(samples, metrics, spec, m, n - 1);
      var cells, before := CellsBelow(samples, metrics, spec, m, n), CellsBelow(samples, metrics, spec, m, n - 1);
      forall b: nat | b < n && (forall i :: 0 <= i < |cells| ==> cells[i].0 != b)
        ensures IsCell(samples, metrics, spec, m, b, None)
      {
        assert forall i :: 0 <= i < |before| ==> before[i] == cells[i];
        assert Cell(samples, metrics, spec, m, n - 1).Some? ==> |before| < |cells| && cells[|before|].0 == n - 1;
      }
    }
  }

  /** The fold over the samples is the declared series. */
  lemma SeriesIsDeclared(samples: seq<Sample>, metrics: nat, spec: ChartSpec, m: nat)
    requires Shaped(samples, metrics) && m < metrics && ValidSpec(spec)
    ensures IsSeries(samples, metrics, spec, m, SeriesOf(samples, metrics, spec, m))
  {
    hide InSight, Points, ListsCells, CellsBelow;
    PointsAreInSight(samples, metrics, spec, m);
    CellsAreListed(samples, metrics, spec, m, BucketCount(spec));
  }
}

/** The in-place chart sampler and the axis-extent scanner. */
module ChartHistory {
  import opened Wrappers
  import opened MinMaxSampler
  import opened ChartSampler

  function Saturated(n: nat): nat { Min(n, U64_MAX) }

  class ChartHistorySampler {
    const metrics: nat
    const spec: ChartSpec
    var sourcePoints: nat
    const metricPoints: array<nat>
    const buckets: array2<Option<ChartBucket>>
    ghost var observed: seq<Sample>

    ghost predicate Shape()
      reads this
    {
      && metrics > 0 && ValidSpec(spec) && Shaped(observed, metrics)
      && metricPoints.Length == metrics && buckets.Length0 == metrics && buckets.Length1 == BucketCount(spec)
    }

    /** Counts and cells are those of all samples observed so far. */
    ghost predicate Valid()
      reads this, metricPoints, buckets
    {
      && Shape()
      && sourcePoints == Saturated(Rows(observed, spec))
      && (forall m :: 0 <= m < metrics ==> metricPoints[m] == Saturated(Points(observed, metrics, spec, m)))
      && (forall m, b :: 0 <= m < metrics && 0 <= b < BucketCount(spec) ==>
            buckets[m, b] == Cell(observed, metrics, spec, m, b))
    }

    constructor (metricCount: nat, chartSpec: ChartSpec)
      requires metricCount > 0 && ValidSpec(chartSpec)
      ensures Valid() && observed == [] && metrics == metricCount && spec == chartSpec
      ensures fresh(metricPoints) && fresh(buckets)
    {
      metrics, spec, sourcePoints, observed := metricCount, chartSpec, 0, [];
      metricPoints := new nat[metricCount](_ => 0);
      buckets := new Option<ChartBucket>[metricCount, BucketCount(chartSpec)]((_, _) => None);
    }

    /** Takes in one sample: at most one cell per metric changes. */
    method Observe(s: Sample)
      requires Valid() && |s.values| == metrics
      modifies this, metricPoints, buckets
      ensures Valid() && observed == old(observed) + [s]
    {
      hide Points, Cell, Rows, BucketCount, InBucket, Hits, InView;
      NextSample(observed, s, metrics, spec);
      var x := InView(spec, s);
      if x.None? {
        OutOfViewHitsNothing(spec, s);
        observed := observed + [s];
        return;
      }
      var b := IndexOf(s, x.value);
      var observedRow := false;
      var m := 0;
      while m < |s.values|
        invariant m <= |s.values| == metrics && Shape() && observed == old(observed)
                  && sourcePoints == old(sourcePoints)
        invariant observedRow <==> exists k :: 0 <= k < m && s.values[k].Some?
        invariant forall k :: 0 <= k < m ==>
                    metricPoints[k] == Saturated(Points(observed, metrics, spec, k) + One(spec, s, k))
        invariant forall k :: m <= k < metrics ==> metricPoints[k] == Saturated(Points(observed, metrics, spec, k))
        invariant forall k, c :: 0 <= k < m && 0 <= c < buckets.Length1 ==>
                    buckets[k, c] == NextCell(Cell(observed, metrics, spec, k, c), s, spec, k, c)
        invariant forall k, c :: m <= k < metrics && 0 <= c < buckets.Length1 ==>
                    buckets[k, c] == Cell(observed, metrics, spec, k, c)
      {
        HitsOne(spec, s, m, b);
        if s.values[m].Some? {
          observedRow := true;
          var value := s.values[m].value;
          if metricPoints[m] < U64_MAX { metricPoints[m] := metricPoints[m] + 1; }
          match buckets[m, b] {
            case None => buckets[m, b] := Some(StartCell(s, x.value, value));
            case Some(cell) => buckets[m, b] := Some(ExtendCell(cell, s, x.value, value));
          }
        }
        m := m + 1;
      }
      assert observedRow <==> HasSome(s);
      if observedRow && sourcePoints < U64_MAX { sourcePoints := sourcePoints + 1; }
      observed := observed + [s];
    }

    function IndexOf(s: Sample, x: nat): (b: nat)
      requires ValidSpec(spec) && InView(spec, s) == Some(x)
      ensures b < BucketCount(spec) && InBucket(spec, x, b)
    {
      OnlyBucket(spec, x);
      BucketIndex(spec, x)
    }

    /** Reads one segment, skipping the row groups whose statistics rule them out. */
    method ReadSegment(groups: seq<RowGroup>)
      requires Valid() && forall i :: 0 <= i < |groups| ==> Truthful(groups[i]) && GroupShaped(groups[i], metrics)
      modifies this, metricPoints, buckets
      ensures Valid() && observed == old(observed) + RowsOfGroups(groups)
    {
      hide Valid, Truthful, AllOutOfView, StepViewport, MayOverlap, RowsOfGroups, Shaped;
      var viewport := StepViewport(spec.coordinate, spec.xMin, spec.xMax);
      var n := 0;
      AllGroups(groups);
      while n < |groups|
        invariant n <= |groups| && Valid() && observed == old(observed) + RowsOfGroups(groups[..n])
      {
        RowsOfNextGroup(groups, n);
        var group := groups[n];
        if viewport.None? || MayOverlap(group.statistics, viewport.value.minimum, viewport.value.maximum) {
          ReadGroup(group.rows);
        } else {
          AllRejected(spec, group) by { assert Truthful(groups[n]); }
          Skip(group.rows);
        }
        n := n + 1;
      }
    }

    method ReadGroup(rows: seq<Sample>)
      requires Valid() && Shaped(rows, metrics)
      modifies this, metricPoints, buckets
      ensures Valid() && observed == old(observed) + rows
    {
      hide Valid;
      var n := 0;
      while n < |rows|
        invariant n <= |rows| && Valid() && observed == old(observed) + rows[..n]
      {
        Observe(rows[n]);
        assert rows[..n + 1] == rows[..n] + [rows[n]];
        n := n + 1;
      }
      assert rows[..n] == rows;
    }

    /** Not reading samples out of view leaves the sampler as if it had read them. */
    ghost method Skip(rows: seq<Sample>)
      requires Valid() && Shaped(rows, metrics) && AllOutOfView(spec, rows)
      modifies this`observed
      ensures Valid() && observed == old(observed) + rows
    {
      hide Points, Cell, Rows, AllOutOfView;
      OutOfViewIsInvisible(observed, rows, metrics, spec);
      observed := observed + rows;
    }

    method Finish() returns (series: seq<ChartMetricHistory>)
      requires Valid()
      ensures |series| == metrics
      ensures forall m :: 0 <= m < metrics ==> series[m] == SeriesOf(observed, metrics, spec, m)
      ensures forall m :: 0 <= m < metrics ==> IsSeries(observed, metrics, spec, m, series[m])
      ensures sourcePoints == Min(|RowsInSight(observed, spec)|, U64_MAX)
    {
      hide Points, Cell, Rows, BucketCount, IsSeries, RowsInSight;
      RowsAreInSight(observed, spec);
      series := [];
      while |series| < metrics
        invariant |series| <= metrics
        invariant forall m :: 0 <= m < |series| ==> series[m] == SeriesOf(observed, metrics, spec, m)
      {
        var m := |series|;
        var cells: seq<(nat, ChartBucket)> := [];
        var b := 0;
        while b < buckets.Length1
          invariant b <= buckets.Length1 && cells == CellsBelow(observed, metrics, spec, m, b)
        {
          if buckets[m, b].Some? { cells := cells + [(b, buckets[m, b].value)]; }
          b := b + 1;
        }
        series := series + [ChartMetricHistory(metricPoints[m], cells)];
      }
      forall m | 0 <= m < metrics
        ensures IsSeries(observed, metrics, spec, m, series[m])
      {
        SeriesIsDeclared(observed, metrics, spec, m);
      }
    }
  }

  method NewAligned(metrics: nat, spec: ChartSpec, cellLimit: nat) returns (r: Option<ChartHistorySampler>)
    ensures r.None? <==> metrics == 0 || !ValidSpec(spec) || spec.maxBuckets * metrics > cellLimit
    ensures r.Some? ==> r.value.Valid() && r.value.observed == [] && r.value.metrics == metrics && r.value.spec == spec
    ensures r.Some? ==> fresh(r.value) && fresh(r.value.metricPoints) && fresh(r.value.buckets)
  {
    if metrics == 0 || spec.first > spec.last || spec.xMin > spec.xMax { return None; }
    if spec.maxBuckets == 0 || spec.maxBuckets > MAX_CHART_BUCKETS { return None; }
    if spec.maxBuckets * metrics > cellLimit { return None; }
    var sampler := new ChartHistorySampler(metrics, spec);
    return Some(sampler);
  }

  ghost predicate GroupShaped(g: RowGroup, metrics: nat) {
    Shaped(g.rows, metrics) && forall i :: 0 <= i < |g.rows| ==> g.rows[i].step <= U64_MAX
  }

  ghost function RowsOfGroups(groups: seq<RowGroup>): seq<Sample> {
    if groups == [] then [] else RowsOfGroups(groups[..|groups| - 1]) + groups[|groups| - 1].rows
  }

  lemma RowsOfNextGroup(groups: seq<RowGroup>, n: nat)
    requires n < |groups|
    ensures RowsOfGroups(groups[..n + 1]) == RowsOfGroups(groups[..n]) + groups[n].rows
  {
    assert groups[..n + 1][..n] == groups[..n];
  }

  lemma AllGroups(groups: seq<RowGroup>)
    ensures groups[..|groups|] == groups && RowsOfGroups(groups[..0]) == []
  {
  }

  lemma AllRejected(spec: ChartSpec, g: RowGroup)
    requires Truthful(g) && forall i :: 0 <= i < |g.rows| ==> g.rows[i].step <= U64_MAX
    requires var viewport := StepViewport(spec.coordinate, spec.xMin, spec.xMax);
             viewport.Some? && !MayOverlap(g.statistics, viewport.value.minimum, viewport.value.maximum)
    ensures AllOutOfView(spec, g.rows)
  {
    forall i | 0 <= i < |g.rows|
      ensures InView(spec, g.rows[i]).None?
    {
      RejectedIsOutOfView(spec, g, i);
    }
  }

  lemma NextSample(samples: seq<Sample>, s: Sample, metrics: nat, spec: ChartSpec)
    requires Shaped(samples, metrics) && |s.values| == metrics && ValidSpec(spec)
    ensures Shaped(samples + [s], metrics)
    ensures forall m: nat, b: nat :: m < metrics ==>
              Cell(samples + [s], metrics, spec, m, b) == NextCell(Cell(samples, metrics, spec, m, b), s, spec, m, b)
    ensures forall m: nat :: m < metrics ==>
              Points(samples + [s], metrics, spec, m) == Points(samples, metrics, spec, m) + One(spec, s, m)
    ensures Rows(samples + [s], spec) == Rows(samples, spec) + if InView(spec, s).Some? && HasSome(s) then 1 else 0
  {
    hide InView, Hits;
    assert (samples + [s])[..|samples|] == samples;
  }

  lemma OutOfViewHitsNothing(spec: ChartSpec, s: Sample)
    requires ValidSpec(spec) && InView(spec, s).None?
    ensures forall m: nat, b: nat :: m < |s.values| ==> !Hits(spec, s, m, b)
    ensures forall m: nat :: m < |s.values| ==> One(spec, s, m) == 0
  {
  }

  lemma HitsOne(spec: ChartSpec, s: Sample, m: nat, b: nat)
    requires ValidSpec(spec) && m < |s.values| && InView(spec, s).Some? && InBucket(spec, InView(spec, s).value, b)
    ensures forall c: nat :: Hits(spec, s, m, c) <==> s.values[m].Some? && c == b
    ensures One(spec, s, m) == if s.values[m].Some? then 1 else 0
  {
    hide InBucket;
    OnlyBucket(spec, InView(spec, s).value);
  }

  // ----------------------------------------------------------- axis extent

  datatype AxisExtent = AxisExtent(stepMin: nat, stepMax: nat, timeMin: int, timeMax: int)

  function Merge(a: AxisExtent, b: AxisExtent): AxisExtent {
    AxisExtent(Min(a.stepMin, b.stepMin), Max(a.stepMax, b.stepMax), Min(a.timeMin, b.timeMin),
               Max(a.timeMax, b.timeMax))
  }

  predicate Counts(s: Sample, first: nat, last: nat, m: nat)
    requires m < |s.values|
  {
    first <= s.sequence <= last && s.values[m].Some?
  }

  function NextExtent(extent: Option<AxisExtent>, s: Sample, first: nat, last: nat, m: nat): Option<AxisExtent>
    requires m < |s.values|
  {
    if !Counts(s, first, last, m) then extent
    else
      var point := AxisExtent(s.step, s.step, s.timestamp, s.timestamp);
      Some(if extent.Some? then Merge(extent.value, point) else point)
  }

  function Extent(samples: seq<Sample>, metrics: nat, first: nat, last: nat, m: nat): Option<AxisExtent>
    requires Shaped(samples, metrics) && m < metrics
  {
    if samples == [] then None
    else NextExtent(Extent(samples[..|samples| - 1], metrics, first, last, m), samples[|samples| - 1], first, last, m)
  }

  /** The extent is tight: every counted sample lies in it and each bound is reached. */
  lemma {:induction false} ExtentIsTight(samples: seq<Sample>, metrics: nat, first: nat, last: nat, m: nat)
    requires Shaped(samples, metrics) && m < metrics
    ensures Extent(samples, metrics, first, last, m).None? <==> forall s :: s in samples ==> !Counts(s, first, last, m)
    ensures Extent(samples, metrics, first, last, m).Some? ==>
              var e := Extent(samples, metrics, first, last, m).value;
              && (forall s :: s in samples && Counts(s, first, last, m) ==>
                    e.stepMin <= s.step <= e.stepMax && e.timeMin <= s.timestamp <= e.timeMax)
              && (exists s :: s in samples && Counts(s, first, last, m) && s.step == e.stepMin)
              && (exists s :: s in samples && Counts(s, first, last, m) && s.step == e.stepMax)
              && (exists s :: s in samples && Counts(s, first, last, m) && s.timestamp == e.timeMin)
              && (exists s :: s in samples && Counts(s, first, last, m) && s.timestamp == e.timeMax)
    decreases |samples|
  {
    if samples != [] {
      var n := |samples| - 1;
      ExtentIsTight(samples[..n], metrics, first, last, m);
      assert samples[n] in samples;
      assert forall s :: s in samples[..n] ==> s in samples;
      assert forall s :: s in samples ==> s in samples[..n] || s == samples[n];
    }
  }

  class ChartAxisExtentScanner {
    const metrics: nat
    const first: nat
    const last: nat
    const extents: array<Option<AxisExtent>>
    ghost var observed: seq<Sample>

    ghost predicate Valid()
      reads this, extents
    {
      && metrics > 0 && first <= last && extents.Length == metrics && Shaped(observed, metrics)
      && forall m :: 0 <= m < metrics ==> extents[m] == Extent(observed, metrics, first, last, m)
    }

    constructor (metricCount: nat, firstSequence: nat, lastSequence: nat)
      requires metricCount > 0 && firstSequence <= lastSequence
      ensures Valid() && observed == [] && metrics == metricCount && first == firstSequence && last == lastSequence
      ensures fresh(extents)
    {
      metrics, first, last, observed := metricCount, firstSequence, lastSequence, [];
      extents := new Option<AxisExtent>[metricCount](_ => None);
    }

    method Observe(s: Sample)
      requires Valid() && |s.values| == metrics
      modifies this, extents
      ensures Valid() && observed == old(observed) + [s]
    {
      hide Extent, Merge;
      ExtentNext(observed, s, metrics, first, last);
      if s.sequence < first || s.sequence > last {
        observed := observed + [s];
        return;
      }
      var m := 0;
      while m < |s.values|
        invariant m <= |s.values| == metrics == extents.Length && observed == old(observed)
        invariant forall k :: 0 <= k < m ==> extents[k] == NextExtent(old(extents[k]), s, first, last, k)
        invariant forall k :: m <= k < metrics ==> extents[k] == old(extents[k])
      {
        if s.values[m].Some? {
          var point := AxisExtent(s.step, s.step, s.timestamp, s.timestamp);
          match extents[m] {
            case None => extents[m] := Some(point);
            case Some(extent) => extents[m] := Some(Merge(extent, point));
          }
        }
        m := m + 1;
      }
      observed := observed + [s];
    }

    method ReadRows(rows: seq<Sample>)
      requires Valid() && Shaped(rows, metrics)
      modifies this, extents
      ensures Valid() && observed == old(observed) + rows
    {
      hide Valid;
      var n := 0;
      while n < |rows|
        invariant n <= |rows| && Valid() && observed == old(observed) + rows[..n]
      {
        Observe(rows[n]);
        assert rows[..n + 1] == rows[..n] + [rows[n]];
        n := n + 1;
      }
      assert rows[..n] == rows;
    }
  }

  lemma ExtentNext(samples: seq<Sample>, s: Sample, metrics: nat, first: nat, last: nat)
    requires Shaped(samples, metrics) && |s.values| == metrics
    ensures Shaped(samples + [s], metrics)
    ensures forall m: nat :: m < metrics ==>
              Extent(samples + [s], metrics, first, last, m)
                == NextExtent(Extent(samples, metrics, first, last, m), s, first, last, m)
  {
    assert (samples + [s])[..|samples|] == samples;
  }
}

/** What a chart query answers, as a function of the flat logs at the watermarks it read. */
module ChartQuery {
  import opened Wrappers
  import opened MetricLog
  import opened ChartSampler
  import opened ChartHistory
  import opened ChartProjection

  datatype Alignment = AlignStep | AlignRelativeStep | AlignElapsedTime

  datatype RunRequest = RunRequest(run: nat, keys: seq<string>)

  datatype Request = Request(runs: seq<RunRequest>, alignment: Alignment, maxBuckets: nat, viewport: Option<Range>)

  datatype Response = Response(
    x: Option<Range>, bucketCount: nat, watermarks: seq<Option<nat>>, series: seq<seq<ChartMetricHistory>>)

  const EMPTY_SERIES: ChartMetricHistory := ChartMetricHistory(0, [])

  function TotalKeys(runs: seq<RunRequest>): nat {
    if runs == [] then 0 else TotalKeys(runs[..|runs| - 1]) + |runs[|runs| - 1].keys|
  }

  /** The requests that pass validation, grouped by run. */
  predicate ValidRequest(request: Request) {
    && request.runs != [] && (forall i :: 0 <= i < |request.runs| ==> request.runs[i].keys != [])
    && (forall i, j :: 0 <= i < j < |request.runs| ==> request.runs[i].run != request.runs[j].run)
    && 0 < request.maxBuckets <= MAX_CHART_BUCKETS
       && request.maxBuckets * TotalKeys(request.runs) <= MAX_CHART_QUERY_CELLS
    && (request.viewport.Some? ==> request.viewport.value.minimum <= request.viewport.value.maximum)
  }

  predicate NeedsAxis(request: Request) {
    request.viewport.None? || request.alignment != AlignStep
  }

  // ------------------------------------------------------------- axis extents

  predicate Ordered(e: AxisExtent) {
    e.stepMin <= e.stepMax && e.timeMin <= e.timeMax
  }

  predicate OrderedIfAny(e: Option<AxisExtent>) {
    e.Some? ==> Ordered(e.value)
  }

  function Combine(a: Option<AxisExtent>, b: Option<AxisExtent>): Option<AxisExtent> {
    if a.None? then b else if b.None? then a else Some(Merge(a.value, b.value))
  }

  lemma CombineLaws(a: Option<AxisExtent>, b: Option<AxisExtent>, c: Option<AxisExtent>)
    ensures Combine(Combine(a, b), c) == Combine(a, Combine(b, c))
    ensures Combine(a, b) == Combine(b, a)
    ensures OrderedIfAny(a) && OrderedIfAny(b) ==> OrderedIfAny(Combine(a, b))
  {
  }

  lemma {:induction false} ExtentIsOrdered(rows: seq<Row>, key: string, first: nat, last: nat)
    ensures OrderedIfAny(KeyExtent(rows, key, first, last))
    decreases |rows|
  {
    hide ProjectRow;
    if rows != [] {
      ProjectInit(rows, [key]);
      ExtentIsOrdered(rows[..|rows| - 1], key, first, last);
    }
  }

  function RunAxis(rows: seq<Row>, keys: seq<string>, first: nat, last: nat): (e: Option<AxisExtent>)
    ensures OrderedIfAny(e)
  {
    if keys == [] then None
    else
      var n := |keys| - 1;
      ExtentIsOrdered(rows, keys[n], first, last);
      Combine(RunAxis(rows, keys[..n], first, last), KeyExtent(rows, keys[n], first, last))
  }

  lemma RunAxisNext(rows: seq<Row>, keys: seq<string>, n: nat, first: nat, last: nat)
    requires n < |keys|
    ensures RunAxis(rows, keys[..n + 1], first, last)
            == Combine(RunAxis(rows, keys[..n], first, last), KeyExtent(rows, keys[n], first, last))
  {
    assert keys[..n + 1][..n] == keys[..n];
  }

  lemma {:induction false} RunAxisIgnoresLater(rows: seq<Row>, extra: seq<Row>, keys: seq<string>, first: nat,
                                               last: nat)
    requires Beyond(extra, last)
    ensures RunAxis(rows + extra, keys, first, last) == RunAxis(rows, keys, first, last)
    decreases |keys|
  {
    hide KeyExtent, Combine;
    if keys != [] {
      RunAxisIgnoresLater(rows, extra, keys[..|keys| - 1], first, last);
      ExtentIgnoresLater(rows, extra, keys[|keys| - 1], first, last);
    }
  }

  /** `aligned_axis_extent` */
  function Aligned(alignment: Alignment, e: AxisExtent): (r: Range)
    requires Ordered(e)
    ensures r.minimum <= r.maximum
  {
    match alignment
    case AlignStep => Range(e.stepMin, e.stepMax)
    case AlignRelativeStep => Range(0, e.stepMax - e.stepMin)
    case AlignElapsedTime => Range(0, e.timeMax - e.timeMin)
  }

  /** `chart_coordinate` */
  function CoordinateOf(alignment: Alignment, axis: Option<AxisExtent>): Option<ChartCoordinate> {
    match alignment
    case AlignStep => Some(StepAxis)
    case AlignRelativeStep => if axis.Some? then Some(RelativeStep(axis.value.stepMin)) else None
    case AlignElapsedTime => if axis.Some? then Some(ElapsedTime(axis.value.timeMin)) else None
  }

  function Widen(x: Option<Range>, r: Range): (w: Option<Range>)
    requires r.minimum <= r.maximum && (x.Some? ==> x.value.minimum <= x.value.maximum)
    ensures w.Some? && w.value.minimum <= w.value.maximum
  {
    if x.None? then Some(r) else Some(Range(Min(x.value.minimum, r.minimum), Max(x.value.maximum, r.maximum)))
  }

  /** The common axis range of all runs that have an extent. */
  function XExtent(alignment: Alignment, axes: seq<Option<AxisExtent>>): (x: Option<Range>)
    requires forall i :: 0 <= i < |axes| ==> OrderedIfAny(axes[i])
    ensures x.Some? ==> x.value.minimum <= x.value.maximum
  {
    if axes == [] then None
    else
      var n := |axes| - 1;
      var x := XExtent(alignment, axes[..n]);
      assert OrderedIfAny(axes[n]);
      if axes[n].None? then x else Widen(x, Aligned(alignment, axes[n].value))
  }

  // ----------------------------------------------------------------- response

  function First(rows: seq<Row>): nat
    requires rows != []
  {
    rows[0].sequence
  }

  function Last(rows: seq<Row>): nat
    requires rows != []
  {
    rows[|rows| - 1].sequence
  }

  /** The axis extent of one run at its watermark, where the query needs it. */
  function AxisAt(request: Request, i: nat, rows: seq<Row>): (e: Option<AxisExtent>)
    requires i < |request.runs|
    ensures OrderedIfAny(e)
  {
    if NeedsAxis(request) && rows != [] then RunAxis(rows, request.runs[i].keys, First(rows), Last(rows)) else None
  }

  function AxesAt(request: Request, logs: seq<seq<Row>>): (axes: seq<Option<AxisExtent>>)
    requires |logs| <= |request.runs|
    ensures |axes| == |logs| && forall i :: 0 <= i < |logs| ==> axes[i] == AxisAt(request, i, logs[i])
  {
    seq(|logs|, i requires 0 <= i < |logs| => AxisAt(request, i, logs[i]))
  }

  function XOfQuery(request: Request, logs: seq<seq<Row>>): (x: Option<Range>)
    requires ValidRequest(request) && |logs| == |request.runs|
    ensures x.Some? ==> x.value.minimum <= x.value.maximum
  {
    if request.viewport.Some? then request.viewport else XExtent(request.alignment, AxesAt(request, logs))
  }

  function SpecAt(rows: seq<Row>, coordinate: ChartCoordinate, x: Range, maxBuckets: nat): ChartSpec
    requires rows != []
  {
    ChartSpec(First(rows), Last(rows), coordinate, x.minimum, x.maximum, maxBuckets)
  }

  /** The uncached series of one key of one run: its rows up to the watermark, seen on the common axis. */
  function SeriesAt(request: Request, rows: seq<Row>, key: string, axis: Option<AxisExtent>,
                    x: Range): ChartMetricHistory
    requires ValidRequest(request) && x.minimum <= x.maximum && (rows != [] ==> First(rows) <= Last(rows))
  {
    if rows == [] then EMPTY_SERIES
    else
      match CoordinateOf(request.alignment, axis)
      case None => EMPTY_SERIES
      case Some(coordinate) => KeySeries(rows, key, SpecAt(rows, coordinate, x, request.maxBuckets))
  }

  predicate OrderedLogs(logs: seq<seq<Row>>) {
    forall i :: 0 <= i < |logs| && logs[i] != [] ==> First(logs[i]) <= Last(logs[i])
  }

  function ExpectedSeries(request: Request, logs: seq<seq<Row>>, i: nat, j: nat): ChartMetricHistory
    requires ValidRequest(request) && |logs| == |request.runs| && OrderedLogs(logs)
    requires i < |request.runs| && j < |request.runs[i].keys|
  {
    var x := XOfQuery(request, logs);
    if x.None? then EMPTY_SERIES
    else SeriesAt(request, logs[i], request.runs[i].keys[j], AxisAt(request, i, logs[i]), x.value)
  }

  /** The response is the one an uncached computation over these logs gives. */
  ghost predicate IsUncached(request: Request, logs: seq<seq<Row>>, response: Response)
    requires ValidRequest(request)
  {
    && |logs| == |request.runs| && OrderedLogs(logs)
    && response.x == XOfQuery(request, logs)
    && (response.x.None? ==> response.bucketCount == 0)
    && (response.x.Some? ==>
          response.bucketCount == Min(response.x.value.maximum - response.x.value.minimum + 1, request.maxBuckets))
    && |response.watermarks| == |logs|
    && (forall i :: 0 <= i < |logs| ==> response.watermarks[i] == if logs[i] == [] then None else Some(Last(logs[i])))
    && |response.series| == |logs|
    && (forall i :: 0 <= i < |logs| ==> |response.series[i]| == |request.runs[i].keys|)
    && (forall i, j :: 0 <= i < |logs| && 0 <= j < |request.runs[i].keys| ==>
          response.series[i][j] == ExpectedSeries(request, logs, i, j))
  }
}

/** What a chart shows, said of the rows of the runs alone, and that an uncached response shows just that. */
module ChartMeaning {
  import opened Wrappers
  import opened Parts
  import opened MetricLog
  import Samples = MinMaxSampler
  import opened ChartSampler
  import opened ChartHistory
  import opened ChartProjection
  import opened ChartQuery

  // ------------------------------------------------------------ declaration

  /** What the alignment measures a row by. */
  function Measure(alignment: Alignment, row: Row): int {
    if alignment.AlignElapsedTime? then row.timestamp else row.step
  }

  /** The axis of a run begins at zero, or at the least measure of its charted rows. */
  ghost predicate IsOrigin(alignment: Alignment, rows: seq<Row>, keys: seq<string>, origin: int) {
    if alignment.AlignStep? then origin == 0
    else
      && (exists r :: r in rows && HasKey(r, keys) && Measure(alignment, r) == origin)
      && forall r :: r in rows && HasKey(r, keys) ==> origin <= Measure(alignment, r)
  }

  /** The row lies at `x` on the axis of its run. */
  ghost predicate LiesAt(alignment: Alignment, rows: seq<Row>, keys: seq<string>, row: Row, x: nat) {
    exists origin: int :: IsOrigin(alignment, rows, keys, origin) && origin + x == Measure(alignment, row)
  }

  /** One run's chart: the keys that fix its origin, the common axis range and the wanted number of buckets. */
  datatype Frame = Frame(alignment: Alignment, keys: seq<string>, range: Range, maxBuckets: nat) {
    predicate Valid() {
      range.minimum <= range.maximum && 0 < maxBuckets <= MAX_CHART_BUCKETS
    }

    function Width(): (n: nat)
      requires Valid()
      ensures n > 0
    {
      range.maximum - range.minimum + 1
    }

    function Buckets(): nat
      requires Valid()
    {
      if Width() <= maxBuckets then Width() else maxBuckets
    }
  }

  /** The row has the key and lies at `x`, which is in range. */
  ghost predicate Shows(f: Frame, rows: seq<Row>, key: string, row: Row, x: nat) {
    && key in row.values && f.range.minimum <= x <= f.range.maximum
    && LiesAt(f.alignment, rows, f.keys, row, x)
  }

  /** ... and `x` is in bucket `b` of the range. */
  ghost predicate Falls(f: Frame, rows: seq<Row>, key: string, row: Row, x: nat, b: nat)
    requires f.Valid()
  {
    Shows(f, rows, key, row, x) && InPart(x - f.range.minimum, f.Width(), f.Buckets(), b)
  }

  /** The bucket shows the least and the greatest value and the newest row of those that fall into it. */
  ghost predicate IsRowCell(f: Frame, rows: seq<Row>, key: string, b: nat, cell: Option<ChartBucket>)
    requires f.Valid()
  {
    match cell
    case None => forall r: Row, x: nat :: r in rows ==> !Falls(f, rows, key, r, x, b)
    case Some(c) =>
      && (forall r: Row, x: nat :: r in rows && Falls(f, rows, key, r, x, b) ==>
            key in r.values && c.minimum <= r.values[key] <= c.maximum && r.sequence <= c.lastSequence)
      && (exists r: Row, x: nat ::
            r in rows && Falls(f, rows, key, r, x, b) && key in r.values && r.values[key] == c.minimum)
      && (exists r: Row, x: nat ::
            r in rows && Falls(f, rows, key, r, x, b) && key in r.values && r.values[key] == c.maximum)
      && exists r: Row, x: nat :: r in rows && Falls(f, rows, key, r, x, b) && IsNewest(c, r, x, key)
  }

  predicate IsNewest(c: ChartBucket, r: Row, x: nat, key: string) {
    && key in r.values && c.last == r.values[key]
    && c.lastSequence == r.sequence && c.lastX == x && c.lastStep == r.step && c.lastTimestamp == r.timestamp
  }

  ghost function ShownRows(f: Frame, rows: seq<Row>, key: string): set<nat> {
    set i | 0 <= i < |rows| && exists x: nat :: Shows(f, rows, key, rows[i], x)
  }

  /** How many rows are in sight, and exactly the non-empty buckets from left to right. */
  ghost predicate IsRowSeries(f: Frame, rows: seq<Row>, key: string, h: ChartMetricHistory)
    requires f.Valid()
  {
    && h.sourcePoints == Min(|ShownRows(f, rows, key)|, U64_MAX)
    && (forall i, j :: 0 <= i < j < |h.cells| ==> h.cells[i].0 < h.cells[j].0)
    && (forall i :: 0 <= i < |h.cells| ==>
          h.cells[i].0 < f.Buckets() && IsRowCell(f, rows, key, h.cells[i].0, Some(h.cells[i].1)))
    && forall b: nat :: b < f.Buckets() && (forall i :: 0 <= i < |h.cells| ==> h.cells[i].0 != b) ==>
         IsRowCell(f, rows, key, b, None)
  }

  /** All charted rows of the run are in range. */
  ghost predicate AllIn(alignment: Alignment, rows: seq<Row>, keys: seq<string>, range: Range) {
    forall r :: r in rows && HasKey(r, keys) ==>
      exists x: nat :: range.minimum <= x <= range.maximum && LiesAt(alignment, rows, keys, r, x)
  }

  /** Some charted row of the run lies at `x`. */
  ghost predicate Reaches(alignment: Alignment, rows: seq<Row>, keys: seq<string>, x: nat) {
    exists r :: r in rows && HasKey(r, keys) && LiesAt(alignment, rows, keys, r, x)
  }

  /** The range is the tightest around all charted rows of the first `n` runs, and there is none if none is charted. */
  ghost predicate IsRange(request: Request, logs: seq<seq<Row>>, n: nat, x: Option<Range>)
    requires n <= |logs| == |request.runs|
  {
    match x
    case None => forall i, r :: 0 <= i < n && r in logs[i] ==> !HasKey(r, request.runs[i].keys)
    case Some(range) =>
      && range.minimum <= range.maximum
      && (forall i :: 0 <= i < n ==> AllIn(request.alignment, logs[i], request.runs[i].keys, range))
      && (exists i :: 0 <= i < n && Reaches(request.alignment, logs[i], request.runs[i].keys, range.minimum))
      && exists i :: 0 <= i < n && Reaches(request.alignment, logs[i], request.runs[i].keys, range.maximum)
  }

  function FrameOf(request: Request, i: nat, x: Range): Frame
    requires i < |request.runs|
  {
    Frame(request.alignment, request.runs[i].keys, x, request.maxBuckets)
  }

  /** What a response must say about the rows of the runs. */
  ghost predicate IsChart(request: Request, logs: seq<seq<Row>>, response: Response)
    requires ValidRequest(request)
  {
    && |logs| == |request.runs| == |response.watermarks| == |response.series|
    && (if request.viewport.Some? then response.x == request.viewport
        else IsRange(request, logs, |logs|, response.x))
    && (response.x.Some? ==> response.x.value.minimum <= response.x.value.maximum)
    && response.bucketCount == (if response.x.None? then 0 else FrameOf(request, 0, response.x.value).Buckets())
    && (forall i :: 0 <= i < |logs| ==> IsWatermark(logs[i], response.watermarks[i]))
    && (forall i :: 0 <= i < |logs| ==> |response.series[i]| == |request.runs[i].keys|)
    && forall i, j :: 0 <= i < |logs| && 0 <= j < |request.runs[i].keys| ==>
         if response.x.None? then response.series[i][j] == EMPTY_SERIES
         else IsRowSeries(FrameOf(request, i, response.x.value), logs[i], request.runs[i].keys[j],
                          response.series[i][j])
  }

  /** The greatest sequence of the run. */
  ghost predicate IsWatermark(rows: seq<Row>, watermark: Option<nat>) {
    match watermark
    case None => rows == []
    case Some(w) => (forall r :: r in rows ==> r.sequence <= w) && exists r :: r in rows && r.sequence == w
  }

  /** The rows of a run lie between its first and its last sequence. */
  ghost predicate InOrder(rows: seq<Row>) {
    forall i :: 0 <= i < |rows| ==> First(rows) <= rows[i].sequence <= Last(rows)
  }

  // -------------------------------------------------------------- axis extent

  /** The extent bounds the charted rows and every bound is reached. */
  ghost predicate Tight(rows: seq<Row>, keys: seq<string>, axis: Option<AxisExtent>) {
    match axis
    case None => forall r :: r in rows ==> !HasKey(r, keys)
    case Some(e) =>
      && (forall r :: r in rows && HasKey(r, keys) ==>
            e.stepMin <= r.step <= e.stepMax && e.timeMin <= r.timestamp <= e.timeMax)
      && (exists r :: r in rows && HasKey(r, keys) && r.step == e.stepMin)
      && (exists r :: r in rows && HasKey(r, keys) && r.step == e.stepMax)
      && (exists r :: r in rows && HasKey(r, keys) && r.timestamp == e.timeMin)
      && (exists r :: r in rows && HasKey(r, keys) && r.timestamp == e.timeMax)
  }

  lemma OneKey(row: Row, key: string, first: nat, last: nat)
    ensures HasKey(row, [key]) <==> key in row.values
    ensures Counts(ProjectRow(row, [key]), first, last, 0) <==> first <= row.sequence <= last && key in row.values
  {
    assert [key][0] == key;
  }

  lemma KeyIsTight(rows: seq<Row>, key: string, first: nat, last: nat)
    requires forall i :: 0 <= i < |rows| ==> first <= rows[i].sequence <= last
    ensures Tight(rows, [key], KeyExtent(rows, key, first, last))
  {
    hide Counts, Extent, HasKey, ProjectRow;
    var samples := Project(rows, [key]);
    ExtentIsTight(samples, 1, first, last, 0);
    ProjectedHeader(rows, key);
    forall i | 0 <= i < |rows|
      ensures HasKey(rows[i], [key]) <==> Counts(samples[i], first, last, 0)
      ensures samples[i] in samples && rows[i] in rows
    {
      OneKey(rows[i], key, first, last);
    }
  }

  lemma ProjectedHeader(rows: seq<Row>, key: string)
    ensures forall i :: 0 <= i < |rows| ==>
              var s := Project(rows, [key])[i];
              s.step == rows[i].step && s.timestamp == rows[i].timestamp && s.sequence == rows[i].sequence
  {
  }

  lemma CombineIsTight(rows: seq<Row>, some: seq<string>, key: string, a: Option<AxisExtent>, b: Option<AxisExtent>)
    requires Tight(rows, some, a) && Tight(rows, [key], b)
    ensures Tight(rows, some + [key], Combine(a, b))
  {
    hide HasKey;
    forall r
      ensures HasKey(r, some + [key]) <==> HasKey(r, some) || HasKey(r, [key])
    {
      ChartedByMore(r, some, key);
    }
  }

  lemma ChartedByMore(row: Row, some: seq<string>, key: string)
    ensures HasKey(row, some + [key]) <==> HasKey(row, some) || HasKey(row, [key])
  {
    var all := some + [key];
    if HasKey(row, some) {
      var i :| 0 <= i < |some| && some[i] in row.values;
      assert all[i] == some[i];
    }
    if HasKey(row, [key]) { assert all[|some|] == [key][0]; }
    if HasKey(row, all) {
      var i :| 0 <= i < |all| && all[i] in row.values;
      if i < |some| { assert all[i] == some[i]; } else { assert all[i] == [key][0]; }
    }
  }

  lemma {:induction false} AxisIsTight(rows: seq<Row>, keys: seq<string>, first: nat, last: nat)
    requires forall i :: 0 <= i < |rows| ==> first <= rows[i].sequence <= last
    ensures Tight(rows, keys, RunAxis(rows, keys, first, last))
    decreases |keys|
  {
    hide Tight, Combine, KeyExtent;
    if keys == [] {
      NothingCharted(rows);
    } else {
      var n := |keys| - 1;
      AxisIsTight(rows, keys[..n], first, last);
      KeyIsTight(rows, keys[n], first, last);
      CombineIsTight(rows, keys[..n], keys[n], RunAxis(rows, keys[..n], first, last),
                     KeyExtent(rows, keys[n], first, last));
      assert keys == keys[..n] + [keys[n]];
    }
  }

  lemma NothingCharted(rows: seq<Row>)
    ensures Tight(rows, [], None)
  {
  }

  // ------------------------------------------------------------------ origin

  function OriginOf(coordinate: ChartCoordinate): int {
    match coordinate
    case StepAxis => 0
    case RelativeStep(origin) => origin
    case ElapsedTime(origin) => origin
  }

  /** The coordinate system is the declared one: of the kind asked for and with the one and only origin. */
  ghost predicate Fits(alignment: Alignment, rows: seq<Row>, keys: seq<string>, coordinate: ChartCoordinate) {
    && (coordinate.StepAxis? <==> alignment.AlignStep?) && (coordinate.ElapsedTime? <==> alignment.AlignElapsedTime?)
    && forall origin: int :: IsOrigin(alignment, rows, keys, origin) <==> origin == OriginOf(coordinate)
  }

  lemma CoordinateFits(alignment: Alignment, rows: seq<Row>, keys: seq<string>, axis: Option<AxisExtent>)
    requires alignment.AlignStep? || Tight(rows, keys, axis)
    ensures CoordinateOf(alignment, axis).None? ==> forall r :: r in rows ==> !HasKey(r, keys)
    ensures CoordinateOf(alignment, axis).Some? ==> Fits(alignment, rows, keys, CoordinateOf(alignment, axis).value)
  {
    hide HasKey;
  }

  lemma PositionIsDeclared(alignment: Alignment, rows: seq<Row>, keys: seq<string>, coordinate: ChartCoordinate,
                           row: Row)
    requires Fits(alignment, rows, keys, coordinate)
    ensures forall x: nat ::
              LiesAt(alignment, rows, keys, row, x) <==> OriginOf(coordinate) + x == Measure(alignment, row)
    ensures forall x: nat ::
              LiesAt(alignment, rows, keys, row, x) <==> XOf(coordinate, row.step, row.timestamp) == Some(x)
  {
    assert IsOrigin(alignment, rows, keys, OriginOf(coordinate));
    hide HasKey;
  }

  // ------------------------------------------------------------------ series

  ghost predicate Framed(f: Frame, rows: seq<Row>, spec: ChartSpec) {
    && f.Valid() && ValidSpec(spec) && (forall i :: 0 <= i < |rows| ==> spec.first <= rows[i].sequence <= spec.last)
    && f.range == Range(spec.xMin, spec.xMax) && f.maxBuckets == spec.maxBuckets
    && Fits(f.alignment, rows, f.keys, spec.coordinate)
  }

  lemma ViewIsDeclared(f: Frame, rows: seq<Row>, key: string, spec: ChartSpec, i: nat)
    requires Framed(f, rows, spec) && i < |rows|
    ensures var s := ProjectRow(rows[i], [key]);
            && (s.values[0].Some? <==> key in rows[i].values)
            && (key in rows[i].values ==> s.values[0] == Some(rows[i].values[key]))
            && forall x: nat :: Shows(f, rows, key, rows[i], x) <==> s.values[0].Some? && InView(spec, s) == Some(x)
  {
    hide LiesAt, Fits, XOf;
    PositionIsDeclared(f.alignment, rows, f.keys, spec.coordinate, rows[i]);
  }

  lemma HitIsDeclared(f: Frame, rows: seq<Row>, key: string, spec: ChartSpec, i: nat)
    requires Framed(f, rows, spec) && i < |rows|
    ensures var s := ProjectRow(rows[i], [key]);
            forall x: nat, b: nat ::
              Falls(f, rows, key, rows[i], x, b) <==> Hits(spec, s, 0, b) && InView(spec, s) == Some(x)
  {
    ViewIsDeclared(f, rows, key, spec, i);
    SameParts(f, spec);
    hide Shows, InView, ProjectRow, Fits, InPart;
  }

  lemma SameParts(f: Frame, spec: ChartSpec)
    requires f.Valid() && ValidSpec(spec) && f.range == Range(spec.xMin, spec.xMax) && f.maxBuckets == spec.maxBuckets
    ensures f.Width() == Span(spec) && f.Buckets() == BucketCount(spec)
  {
  }

  /** What is said of the samples holds of the rows they come from. */
  ghost predicate Corresponds(f: Frame, rows: seq<Row>, key: string, spec: ChartSpec, samples: seq<Samples.Sample>)
    requires f.Valid() && ValidSpec(spec)
  {
    && |samples| == |rows| && Samples.Shaped(samples, 1)
    && (forall i :: 0 <= i < |rows| ==> SameRow(rows[i], samples[i], key))
    && (forall i, x: nat :: 0 <= i < |rows| ==>
          (Shows(f, rows, key, rows[i], x) <==> samples[i].values[0].Some? && InView(spec, samples[i]) == Some(x)))
    && forall i, x: nat, b: nat :: 0 <= i < |rows| ==>
         (Falls(f, rows, key, rows[i], x, b) <==> Hits(spec, samples[i], 0, b) && InView(spec, samples[i]) == Some(x))
  }

  predicate SameRow(r: Row, s: Samples.Sample, key: string) {
    && |s.values| == 1 && (s.values[0].Some? <==> key in r.values)
       && (key in r.values ==> s.values[0] == Some(r.values[key]))
    && s.sequence == r.sequence && s.step == r.step && s.timestamp == r.timestamp
  }

  lemma ProjectionCorresponds(f: Frame, rows: seq<Row>, key: string, spec: ChartSpec)
    requires Framed(f, rows, spec)
    ensures Corresponds(f, rows, key, spec, Project(rows, [key]))
  {
    hide Shows, Falls, Hits, InView, Framed, ProjectRow;
    FrameParts(f, rows, spec);
    var samples := Project(rows, [key]);
    ProjectedHeader(rows, key);
    forall i | 0 <= i < |rows|
      ensures SameRow(rows[i], samples[i], key)
      ensures forall x: nat ::
                Shows(f, rows, key, rows[i], x) <==> samples[i].values[0].Some? && InView(spec, samples[i]) == Some(x)
      ensures forall x: nat, b: nat ::
                Falls(f, rows, key, rows[i], x, b) <==>
                    Hits(spec, samples[i], 0, b) && InView(spec, samples[i]) == Some(x)
    {
      ViewIsDeclared(f, rows, key, spec, i);
      HitIsDeclared(f, rows, key, spec, i);
    }
  }

  lemma FrameParts(f: Frame, rows: seq<Row>, spec: ChartSpec)
    requires Framed(f, rows, spec)
    ensures f.Valid() && ValidSpec(spec)
  {
    hide Fits;
  }

  lemma CellMeans(f: Frame, rows: seq<Row>, key: string, spec: ChartSpec, samples: seq<Samples.Sample>, b: nat,
                  cell: Option<ChartBucket>)
    requires f.Valid() && ValidSpec(spec) && Corresponds(f, rows, key, spec, samples)
    requires IsCell(samples, 1, spec, 0, b, cell)
    ensures IsRowCell(f, rows, key, b, cell)
  {
    hide Falls, Shows, Hits, InView;
    match cell
    case None => EmptyCellMeans(f, rows, key, spec, samples, b);
    case Some(c) =>
      CellBounds(f, rows, key, spec, samples, b, c);
      var low, high, newest := ShownSamples(spec, samples, b, c);
      var i, x := RowOf(f, rows, key, spec, samples, b, low);
      var j, y := RowOf(f, rows, key, spec, samples, b, high);
      var k, z := RowOf(f, rows, key, spec, samples, b, newest);
      assert IsNewest(c, rows[k], z, key);
  }

  lemma ShownSamples(spec: ChartSpec, samples: seq<Samples.Sample>, b: nat, c: ChartBucket)
    returns (low: Samples.Sample, high: Samples.Sample, newest: Samples.Sample)
    requires ValidSpec(spec) && Samples.Shaped(samples, 1) && IsCell(samples, 1, spec, 0, b, Some(c))
    ensures low in samples && |low.values| == 1 && Hits(spec, low, 0, b) && low.values[0] == Some(c.minimum)
    ensures high in samples && |high.values| == 1 && Hits(spec, high, 0, b) && high.values[0] == Some(c.maximum)
    ensures newest in samples && |newest.values| == 1 && Hits(spec, newest, 0, b)
    ensures newest.values[0] == Some(c.last) && InView(spec, newest) == Some(c.lastX)
    ensures newest.sequence == c.lastSequence && newest.step == c.lastStep && newest.timestamp == c.lastTimestamp
  {
    hide InBucket, InView;
    low :| low in samples && Hits(spec, low, 0, b) && low.values[0].value == c.minimum;
    high :| high in samples && Hits(spec, high, 0, b) && high.values[0].value == c.maximum;
    newest :| newest in samples && Hits(spec, newest, 0, b)
      && c == ChartBucket(c.minimum, c.maximum, newest.sequence, InView(spec, newest).value, newest.step,
                          newest.timestamp, newest.values[0].value);
  }

  lemma RowOf(f: Frame, rows: seq<Row>, key: string, spec: ChartSpec, samples: seq<Samples.Sample>, b: nat,
              s: Samples.Sample)
    returns (i: nat, x: nat)
    requires f.Valid() && ValidSpec(spec) && Corresponds(f, rows, key, spec, samples)
    requires s in samples && |s.values| == 1 && Hits(spec, s, 0, b)
    ensures i < |rows| && rows[i] in rows && SameRow(rows[i], s, key)
    ensures InView(spec, s) == Some(x) && Falls(f, rows, key, rows[i], x, b)
  {
    HitsAreInView(spec, s, b);
    hide Falls, Shows, Hits, InView;
    i :| 0 <= i < |samples| && samples[i] == s;
    x := InView(spec, s).value;
  }

  lemma HitsAreInView(spec: ChartSpec, s: Samples.Sample, b: nat)
    requires ValidSpec(spec) && |s.values| == 1 && Hits(spec, s, 0, b)
    ensures InView(spec, s).Some? && s.values[0].Some?
  {
  }

  lemma EmptyCellMeans(f: Frame, rows: seq<Row>, key: string, spec: ChartSpec, samples: seq<Samples.Sample>, b: nat)
    requires f.Valid() && ValidSpec(spec) && Corresponds(f, rows, key, spec, samples)
    requires IsCell(samples, 1, spec, 0, b, None)
    ensures IsRowCell(f, rows, key, b, None)
  {
    hide Falls, Shows, Hits, InView;
    forall r: Row, x: nat | r in rows
      ensures !Falls(f, rows, key, r, x, b)
    {
      var i :| 0 <= i < |rows| && rows[i] == r;
      assert samples[i] in samples;
    }
  }

  lemma CellBounds(f: Frame, rows: seq<Row>, key: string, spec: ChartSpec, samples: seq<Samples.Sample>, b: nat,
                   c: ChartBucket)
    requires f.Valid() && ValidSpec(spec) && Corresponds(f, rows, key, spec, samples)
    requires IsCell(samples, 1, spec, 0, b, Some(c))
    ensures forall r: Row, x: nat :: r in rows && Falls(f, rows, key, r, x, b) ==>
              key in r.values && c.minimum <= r.values[key] <= c.maximum && r.sequence <= c.lastSequence
  {
    hide Falls, Shows, Hits, InView;
    forall r: Row, x: nat | r in rows && Falls(f, rows, key, r, x, b)
      ensures key in r.values && c.minimum <= r.values[key] <= c.maximum && r.sequence <= c.lastSequence
    {
      var i :| 0 <= i < |rows| && rows[i] == r;
      assert samples[i] in samples && Hits(spec, samples[i], 0, b);
      HitsAreInView(spec, samples[i], b);
    }
  }

  /** The series of a key is the declared one. */
  lemma SeriesMeans(f: Frame, rows: seq<Row>, key: string, spec: ChartSpec)
    requires Framed(f, rows, spec)
    ensures IsRowSeries(f, rows, key, KeySeries(rows, key, spec))
  {
    hide Corresponds, Framed, IsCell, IsRowCell, Project, InView, Shows;
    FrameParts(f, rows, spec);
    FrameCounts(f, rows, spec);
    ProjectionCorresponds(f, rows, key, spec);
    var samples, h := Project(rows, [key]), KeySeries(rows, key, spec);
    SeriesIsDeclared(samples, 1, spec, 0);
    SightMeans(f, rows, key, spec, samples);
    forall i | 0 <= i < |h.cells|
      ensures IsRowCell(f, rows, key, h.cells[i].0, Some(h.cells[i].1))
    {
      CellMeans(f, rows, key, spec, samples, h.cells[i].0, Some(h.cells[i].1));
    }
    forall b: nat | b < f.Buckets() && (forall i :: 0 <= i < |h.cells| ==> h.cells[i].0 != b)
      ensures IsRowCell(f, rows, key, b, None)
    {
      CellMeans(f, rows, key, spec, samples, b, None);
    }
  }

  lemma FrameCounts(f: Frame, rows: seq<Row>, spec: ChartSpec)
    requires Framed(f, rows, spec)
    ensures f.Valid() && f.Buckets() == BucketCount(spec)
  {
    hide Fits;
  }

  lemma SightMeans(f: Frame, rows: seq<Row>, key: string, spec: ChartSpec, samples: seq<Samples.Sample>)
    requires f.Valid() && ValidSpec(spec) && Corresponds(f, rows, key, spec, samples)
    ensures InSight(samples, 1, spec, 0) == ShownRows(f, rows, key)
  {
    hide Falls, Shows, Hits, InView;
    forall i | 0 <= i < |rows|
      ensures (samples[i].values[0].Some? && InView(spec, samples[i]).Some?)
              <==> exists x: nat :: Shows(f, rows, key, rows[i], x)
    {
      assert |samples[i].values| == 1;
      if samples[i].values[0].Some? && InView(spec, samples[i]).Some? {
        assert Shows(f, rows, key, rows[i], InView(spec, samples[i]).value);
      }
      if x: nat :| Shows(f, rows, key, rows[i], x) {
        assert InView(spec, samples[i]) == Some(x);
      }
    }
  }

  /** A run in which no row is charted has nothing to show. */
  lemma NothingMeans(f: Frame, rows: seq<Row>, key: string)
    requires f.Valid() && key in f.keys && forall r :: r in rows ==> !HasKey(r, f.keys)
    ensures IsRowSeries(f, rows, key, EMPTY_SERIES)
  {
    hide LiesAt, InPart;
    forall r | r in rows
      ensures key !in r.values
    {
    }
    assert ShownRows(f, rows, key) == {};
  }

  // ------------------------------------------------------------------- range

  lemma RunRange(alignment: Alignment, rows: seq<Row>, keys: seq<string>, e: AxisExtent)
    requires Tight(rows, keys, Some(e)) && Ordered(e)
    ensures AllIn(alignment, rows, keys, Aligned(alignment, e))
    ensures Reaches(alignment, rows, keys, Aligned(alignment, e).minimum)
    ensures Reaches(alignment, rows, keys, Aligned(alignment, e).maximum)
  {
    hide HasKey, LiesAt, Fits;
    var coordinate, range := CoordinateOf(alignment, Some(e)).value, Aligned(alignment, e);
    CoordinateFits(alignment, rows, keys, Some(e));
    forall r | r in rows && HasKey(r, keys)
      ensures range.minimum <= Measure(alignment, r) - OriginOf(coordinate) <= range.maximum
      ensures LiesAt(alignment, rows, keys, r, Measure(alignment, r) - OriginOf(coordinate))
    {
      PositionIsDeclared(alignment, rows, keys, coordinate, r);
    }
    var low := Attained(alignment, rows, keys, e, coordinate, range.minimum);
    var high := Attained(alignment, rows, keys, e, coordinate, range.maximum);
  }

  lemma Attained(alignment: Alignment, rows: seq<Row>, keys: seq<string>, e: AxisExtent, coordinate: ChartCoordinate,
                 x: nat)
    returns (r: Row)
    requires Tight(rows, keys, Some(e)) && Ordered(e) && CoordinateOf(alignment, Some(e)) == Some(coordinate)
    requires x in {Aligned(alignment, e).minimum, Aligned(alignment, e).maximum}
    ensures r in rows && HasKey(r, keys) && Measure(alignment, r) == OriginOf(coordinate) + x
  {
    hide HasKey;
    if alignment.AlignElapsedTime? {
      if x == 0 {
        r :| r in rows && HasKey(r, keys) && r.timestamp == e.timeMin;
      } else {
        r :| r in rows && HasKey(r, keys) && r.timestamp == e.timeMax;
      }
    } else if OriginOf(coordinate) + x == e.stepMin {
      r :| r in rows && HasKey(r, keys) && r.step == e.stepMin;
    } else {
      r :| r in rows && HasKey(r, keys) && r.step == e.stepMax;
    }
  }

  lemma WiderHoldsAll(alignment: Alignment, rows: seq<Row>, keys: seq<string>, a: Range, b: Range)
    requires AllIn(alignment, rows, keys, a) && b.minimum <= a.minimum && a.maximum <= b.maximum
    ensures AllIn(alignment, rows, keys, b)
  {
    hide HasKey, LiesAt;
    forall r | r in rows && HasKey(r, keys)
      ensures exists x: nat :: b.minimum <= x <= b.maximum && LiesAt(alignment, rows, keys, r, x)
    {
      var x: nat :| a.minimum <= x <= a.maximum && LiesAt(alignment, rows, keys, r, x);
    }
  }

  lemma EmptyHoldsAll(alignment: Alignment, rows: seq<Row>, keys: seq<string>, range: Range)
    requires forall r :: r in rows ==> !HasKey(r, keys)
    ensures AllIn(alignment, rows, keys, range)
  {
    hide HasKey, LiesAt;
  }

  /** One more run widens the range by what it has. */
  lemma RangeNext(request: Request, logs: seq<seq<Row>>, n: nat, x: Option<Range>, range: Range)
    requires n < |logs| == |request.runs| && IsRange(request, logs, n, x) && range.minimum <= range.maximum
    requires AllIn(request.alignment, logs[n], request.runs[n].keys, range)
    requires Reaches(request.alignment, logs[n], request.runs[n].keys, range.minimum)
    requires Reaches(request.alignment, logs[n], request.runs[n].keys, range.maximum)
    ensures IsRange(request, logs, n + 1, Widen(x, range))
  {
    hide HasKey, LiesAt, AllIn, Reaches;
    var wider := Widen(x, range).value;
    forall i | 0 <= i < n + 1
      ensures AllIn(request.alignment, logs[i], request.runs[i].keys, wider)
    {
      if i == n {
        WiderHoldsAll(request.alignment, logs[i], request.runs[i].keys, range, wider);
      } else if x.Some? {
        WiderHoldsAll(request.alignment, logs[i], request.runs[i].keys, x.value, wider);
      } else {
        EmptyHoldsAll(request.alignment, logs[i], request.runs[i].keys, wider);
      }
    }
  }

  lemma RangeStays(request: Request, logs: seq<seq<Row>>, n: nat, x: Option<Range>)
    requires n < |logs| == |request.runs| && IsRange(request, logs, n, x)
    requires forall r :: r in logs[n] ==> !HasKey(r, request.runs[n].keys)
    ensures IsRange(request, logs, n + 1, x)
  {
    hide HasKey, LiesAt, AllIn, Reaches;
    if x.Some? { EmptyHoldsAll(request.alignment, logs[n], request.runs[n].keys, x.value); }
  }

  lemma ExtentNext(alignment: Alignment, axes: seq<Option<AxisExtent>>, n: nat)
    requires n < |axes| && forall i :: 0 <= i < |axes| ==> OrderedIfAny(axes[i])
    ensures XExtent(alignment, axes[..n + 1])
            == if axes[n].None? then XExtent(alignment, axes[..n])
               else Widen(XExtent(alignment, axes[..n]), Aligned(alignment, axes[n].value))
  {
    hide Widen, Aligned;
    assert axes[..n + 1][..n] == axes[..n];
  }

  /** The common extent of all runs is the declared range. */
  lemma {:induction false} RangeIsDeclared(request: Request, logs: seq<seq<Row>>, axes: seq<Option<AxisExtent>>, n: nat)
    requires n <= |logs| == |request.runs| == |axes|
    requires forall i :: 0 <= i < |axes| ==> OrderedIfAny(axes[i]) && Tight(logs[i], request.runs[i].keys, axes[i])
    ensures IsRange(request, logs, n, XExtent(request.alignment, axes[..n]))
    decreases n
  {
    hide *;
    PrefixIsOrdered(axes, n);
    if n == 0 {
      NoRuns(request, logs, axes);
    } else {
      PrefixIsOrdered(axes, n - 1);
      RangeIsDeclared(request, logs, axes, n - 1);
      ExtentNext(request.alignment, axes, n - 1);
      RangeOfNext(request, logs, n - 1, XExtent(request.alignment, axes[..n - 1]), axes[n - 1]);
    }
  }

  lemma RangeOfNext(request: Request, logs: seq<seq<Row>>, n: nat, x: Option<Range>, axis: Option<AxisExtent>)
    requires n < |logs| == |request.runs| && IsRange(request, logs, n, x)
    requires OrderedIfAny(axis) && Tight(logs[n], request.runs[n].keys, axis)
    requires x.Some? ==> x.value.minimum <= x.value.maximum
    ensures IsRange(request, logs, n + 1, if axis.None? then x else Widen(x, Aligned(request.alignment, axis.value)))
  {
    hide IsRange, Tight, Aligned, Widen, AllIn, Reaches, HasKey;
    if axis.None? {
      NothingTight(logs[n], request.runs[n].keys);
      RangeStays(request, logs, n, x);
    } else {
      RunRange(request.alignment, logs[n], request.runs[n].keys, axis.value);
      RangeNext(request, logs, n, x, Aligned(request.alignment, axis.value));
    }
  }

  lemma PrefixIsOrdered(axes: seq<Option<AxisExtent>>, n: nat)
    requires n <= |axes| && forall i :: 0 <= i < |axes| ==> OrderedIfAny(axes[i])
    ensures forall i :: 0 <= i < |axes[..n]| ==> OrderedIfAny(axes[..n][i])
  {
  }

  lemma NoRuns(request: Request, logs: seq<seq<Row>>, axes: seq<Option<AxisExtent>>)
    requires |logs| == |request.runs|
    ensures axes[..0] == [] && IsRange(request, logs, 0, XExtent(request.alignment, []))
  {
  }

  lemma NothingTight(rows: seq<Row>, keys: seq<string>)
    requires Tight(rows, keys, None)
    ensures forall r :: r in rows ==> !HasKey(r, keys)
  {
  }

  // ---------------------------------------------------------------- response

  lemma AxisAtIsTight(request: Request, i: nat, rows: seq<Row>)
    requires i < |request.runs| && NeedsAxis(request) && InOrder(rows)
    ensures Tight(rows, request.runs[i].keys, AxisAt(request, i, rows))
  {
    hide HasKey;
    if rows != [] {
      hide RunAxis, Tight;
      AxisIsTight(rows, request.runs[i].keys, First(rows), Last(rows));
    }
  }

  lemma QueryRangeIsDeclared(request: Request, logs: seq<seq<Row>>)
    requires ValidRequest(request) && |logs| == |request.runs| && request.viewport.None?
    requires forall i :: 0 <= i < |logs| ==> InOrder(logs[i])
    ensures IsRange(request, logs, |logs|, XOfQuery(request, logs))
  {
    hide IsRange, Tight, ValidRequest, InOrder, AxisAt;
    var axes := AxesAt(request, logs);
    forall i | 0 <= i < |axes|
      ensures OrderedIfAny(axes[i]) && Tight(logs[i], request.runs[i].keys, axes[i])
    {
      AxisAtIsTight(request, i, logs[i]);
    }
    RangeIsDeclared(request, logs, axes, |logs|);
    assert axes[..|logs|] == axes;
  }

  lemma AxisFits(request: Request, i: nat, rows: seq<Row>)
    requires i < |request.runs| && InOrder(rows)
    ensures request.alignment.AlignStep? || Tight(rows, request.runs[i].keys, AxisAt(request, i, rows))
  {
    hide Tight, InOrder, AxisAt;
    if NeedsAxis(request) { AxisAtIsTight(request, i, rows); }
  }

  lemma IsFramed(request: Request, i: nat, rows: seq<Row>, x: Range, coordinate: ChartCoordinate)
    requires ValidRequest(request) && i < |request.runs| && x.minimum <= x.maximum
    requires rows != [] && First(rows) <= Last(rows) && InOrder(rows)
    requires Fits(request.alignment, rows, request.runs[i].keys, coordinate)
    ensures Framed(FrameOf(request, i, x), rows, SpecAt(rows, coordinate, x, request.maxBuckets))
  {
    hide Fits;
  }

  /** The uncached series of one key is what its run has to show. */
  lemma UncachedSeriesMeans(request: Request, i: nat, j: nat, rows: seq<Row>, x: Range)
    requires ValidRequest(request) && i < |request.runs| && j < |request.runs[i].keys| && x.minimum <= x.maximum
    requires InOrder(rows) && (rows != [] ==> First(rows) <= Last(rows))
    ensures FrameOf(request, i, x).Valid()
    ensures IsRowSeries(FrameOf(request, i, x), rows, request.runs[i].keys[j],
                        SeriesAt(request, rows, request.runs[i].keys[j], AxisAt(request, i, rows), x))
  {
    hide IsRowSeries, Fits, Tight, HasKey, AxisAt, KeySeries, InOrder, CoordinateOf, Framed;
    var f, keys, axis := FrameOf(request, i, x), request.runs[i].keys, AxisAt(request, i, rows);
    AxisFits(request, i, rows);
    CoordinateFits(request.alignment, rows, keys, axis);
    if rows == [] || CoordinateOf(request.alignment, axis).None? {
      NothingMeans(f, rows, keys[j]);
    } else {
      var coordinate := CoordinateOf(request.alignment, axis).value;
      IsFramed(request, i, rows, x, coordinate);
      SeriesMeans(f, rows, keys[j], SpecAt(rows, coordinate, x, request.maxBuckets));
    }
  }

  lemma LastIsWatermark(rows: seq<Row>)
    requires InOrder(rows)
    ensures IsWatermark(rows, if rows == [] then None else Some(Last(rows)))
  {
    if rows != [] { assert rows[|rows| - 1] in rows; }
  }

  /** An uncached response is a chart of the rows of the runs. */
  lemma UncachedIsChart(request: Request, logs: seq<seq<Row>>, response: Response)
    requires ValidRequest(request) && IsUncached(request, logs, response)
    requires forall i :: 0 <= i < |logs| ==> InOrder(logs[i])
    ensures IsChart(request, logs, response)
  {
    hide IsRange, IsRowSeries, InOrder, IsWatermark, SeriesAt, XOfQuery, AxisAt;
    if request.viewport.None? { QueryRangeIsDeclared(request, logs); } else { ViewportIsRange(request, logs); }
    forall i | 0 <= i < |logs|
      ensures IsWatermark(logs[i], response.watermarks[i])
    {
      LastIsWatermark(logs[i]);
    }
    if response.x.Some? {
      forall i, j | 0 <= i < |logs| && 0 <= j < |request.runs[i].keys|
        ensures FrameOf(request, i, response.x.value).Valid()
        ensures IsRowSeries(FrameOf(request, i, response.x.value), logs[i], request.runs[i].keys[j],
                            response.series[i][j])
      {
        UncachedSeriesMeans(request, i, j, logs[i], response.x.value);
      }
    }
  }

  lemma ViewportIsRange(request: Request, logs: seq<seq<Row>>)
    requires ValidRequest(request) && |logs| == |request.runs| && request.viewport.Some?
    ensures XOfQuery(request, logs) == request.viewport
  {
  }
}

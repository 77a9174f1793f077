/** The chart of one metric key as a function of the flat log, independent of which keys are scanned together. */
module ChartProjection {
  import opened Wrappers
  import opened MetricLog
  import Samples = MinMaxSampler
  import opened ChartSampler
  import opened ChartHistory

  /** What a reader that projects these keys sees of a row. */
  function ProjectRow(row: Row, keys: seq<string>): (s: Samples.Sample)
    ensures |s.values| == |keys|
  {
    Samples.Sample(row.sequence, row.step, row.timestamp,
                   seq(|keys|, m requires 0 <= m < |keys| =>
                         if keys[m] in row.values then Some(row.values[keys[m]]) else None))
  }

  /** The row has a value of one of these keys. */
  predicate HasKey(row: Row, keys: seq<string>) {
    exists i :: 0 <= i < |keys| && keys[i] in row.values
  }

  function Project(rows: seq<Row>, keys: seq<string>): (samples: seq<Samples.Sample>)
    ensures |samples| == |rows| && Samples.Shaped(samples, |keys|)
    ensures forall i :: 0 <= i < |rows| ==> samples[i] == ProjectRow(rows[i], keys)
  {
    seq(|rows|, i requires 0 <= i < |rows| => ProjectRow(rows[i], keys))
  }

  /** The uncached axis extent of one key. */
  function KeyExtent(rows: seq<Row>, key: string, first: nat, last: nat): Option<AxisExtent> {
    Extent(Project(rows, [key]), 1, first, last, 0)
  }

  /** The uncached series of one key. */
  function KeySeries(rows: seq<Row>, key: string, spec: ChartSpec): ChartMetricHistory
    requires ValidSpec(spec)
  {
    SeriesOf(Project(rows, [key]), 1, spec, 0)
  }

  lemma ProjectSplit(a: seq<Row>, b: seq<Row>, keys: seq<string>)
    ensures Project(a + b, keys) == Project(a, keys) + Project(b, keys)
  {
  }

  lemma ProjectInit(rows: seq<Row>, keys: seq<string>)
    requires rows != []
    ensures Project(rows, keys)[..|rows| - 1] == Project(rows[..|rows| - 1], keys)
  {
  }

  lemma SameValue(row: Row, keys: seq<string>, m: nat)
    requires m < |keys|
    ensures ProjectRow(row, keys).values[m] == ProjectRow(row, [keys[m]]).values[0]
  {
  }

  /** Scanning several keys at once gives each key its own extent. */
  lemma {:induction false} ExtentOfKey(rows: seq<Row>, keys: seq<string>, first: nat, last: nat, m: nat)
    requires m < |keys|
    ensures Extent(Project(rows, keys), |keys|, first, last, m) == KeyExtent(rows, keys[m], first, last)
    decreases |rows|
  {
    hide ProjectRow, Merge;
    if rows != [] {
      var n := |rows| - 1;
      ProjectInit(rows, keys);
      ProjectInit(rows, [keys[m]]);
      ExtentOfKey(rows[..n], keys, first, last, m);
      SameValue(rows[n], keys, m);
      SameHeader(rows[n], keys, [keys[m]]);
    }
  }

  lemma SameHeader(row: Row, keys: seq<string>, others: seq<string>)
    ensures var a, b := ProjectRow(row, keys), ProjectRow(row, others);
            a.sequence == b.sequence && a.step == b.step && a.timestamp == b.timestamp
  {
  }

  lemma {:induction false} CellOfKey(rows: seq<Row>, keys: seq<string>, spec: ChartSpec, m: nat, b: nat)
    requires m < |keys| && ValidSpec(spec)
    ensures Cell(Project(rows, keys), |keys|, spec, m, b) == Cell(Project(rows, [keys[m]]), 1, spec, 0, b)
    decreases |rows|
  {
    hide ProjectRow, XOf, InBucket;
    if rows != [] {
      var n := |rows| - 1;
      ProjectInit(rows, keys);
      ProjectInit(rows, [keys[m]]);
      CellOfKey(rows[..n], keys, spec, m, b);
      SameValue(rows[n], keys, m);
      SameHeader(rows[n], keys, [keys[m]]);
    }
  }

  lemma {:induction false} PointsOfKey(rows: seq<Row>, keys: seq<string>, spec: ChartSpec, m: nat)
    requires m < |keys|
    ensures Points(Project(rows, keys), |keys|, spec, m) == Points(Project(rows, [keys[m]]), 1, spec, 0)
    decreases |rows|
  {
    hide ProjectRow, XOf;
    if rows != [] {
      var n := |rows| - 1;
      ProjectInit(rows, keys);
      ProjectInit(rows, [keys[m]]);
      PointsOfKey(rows[..n], keys, spec, m);
      SameValue(rows[n], keys, m);
      SameHeader(rows[n], keys, [keys[m]]);
    }
  }

  lemma {:induction false} CellsAgree(a: seq<Samples.Sample>, x: nat, i: nat, b: seq<Samples.Sample>, y: nat, j: nat,
                                      spec: ChartSpec, n: nat)
    requires Samples.Shaped(a, x) && i < x && Samples.Shaped(b, y) && j < y && ValidSpec(spec)
    requires forall c: nat :: Cell(a, x, spec, i, c) == Cell(b, y, spec, j, c)
    ensures CellsBelow(a, x, spec, i, n) == CellsBelow(b, y, spec, j, n)
    decreases n
  {
    hide Cell;
    if n > 0 { CellsAgree(a, x, i, b, y, j, spec, n - 1); }
  }

  /** Sampling several keys at once gives each key the series it would have alone. */
  lemma SeriesOfKey(rows: seq<Row>, keys: seq<string>, spec: ChartSpec, m: nat)
    requires m < |keys| && ValidSpec(spec)
    ensures SeriesOf(Project(rows, keys), |keys|, spec, m) == KeySeries(rows, keys[m], spec)
  {
    hide Cell, Points, CellsBelow, Project;
    forall b: nat
      ensures Cell(Project(rows, keys), |keys|, spec, m, b) == Cell(Project(rows, [keys[m]]), 1, spec, 0, b)
    {
      CellOfKey(rows, keys, spec, m, b);
    }
    CellsAgree(Project(rows, keys), |keys|, m, Project(rows, [keys[m]]), 1, 0, spec, BucketCount(spec));
    PointsOfKey(rows, keys, spec, m);
  }

  ghost predicate Beyond(rows: seq<Row>, last: nat) {
    forall i :: 0 <= i < |rows| ==> last < rows[i].sequence
  }

  /** Rows past the watermark do not change the extent at the watermark. */
  lemma {:induction false} ExtentIgnoresLater(rows: seq<Row>, extra: seq<Row>, key: string, first: nat, last: nat)
    requires Beyond(extra, last)
    ensures KeyExtent(rows + extra, key, first, last) == KeyExtent(rows, key, first, last)
    decreases |extra|
  {
    hide ProjectRow, Merge;
    if extra == [] {
      assert rows + extra == rows;
    } else {
      var n := |extra| - 1;
      ExtentIgnoresLater(rows, extra[..n], key, first, last);
      assert (rows + extra)[..|rows + extra| - 1] == rows + extra[..n];
      ProjectInit(rows + extra, [key]);
      assert (rows + extra)[|rows + extra| - 1] == extra[n];
      LaterDoesNotCount(extra[n], key, first, last);
    }
  }

  lemma LaterDoesNotCount(row: Row, key: string, first: nat, last: nat)
    requires last < row.sequence
    ensures !Counts(ProjectRow(row, [key]), first, last, 0)
  {
  }

  /** Rows past the watermark do not change a series at the watermark. */
  lemma SeriesIgnoresLater(rows: seq<Row>, extra: seq<Row>, key: string, spec: ChartSpec)
    requires ValidSpec(spec) && Beyond(extra, spec.last)
    ensures KeySeries(rows + extra, key, spec) == KeySeries(rows, key, spec)
  {
    hide Cell, Points, CellsBelow, Rows;
    ProjectSplit(rows, extra, [key]);
    var a, b := Project(rows, [key]), Project(extra, [key]);
    assert AllOutOfView(spec, b);
    OutOfViewIsInvisible(a, b, 1, spec);
    CellsAgree(a + b, 1, 0, a, 1, 0, spec, BucketCount(spec));
  }
}

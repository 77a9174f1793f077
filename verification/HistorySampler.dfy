/** The sampler over a sequence extent: consecutive samples share a bucket, each bucket keeps its extrema. */
module HistorySampler {
  import opened Wrappers
  import opened MinMaxSampler
  import opened Parts

  datatype SamplerError = InvalidSegment

  // --------------------------------------------------------------- routing

  /** The row with this sequence belongs to bucket `b` of `count`: the extent is cut into equal parts. */
  predicate InBucket(first: nat, last: nat, count: nat, sequence: nat, b: nat) {
    first <= sequence <= last && InPart(sequence - first, last - first + 1, count, b)
  }

  function BucketOf(first: nat, last: nat, count: nat, sequence: nat): (b: nat)
    requires first <= sequence <= last && count > 0
    ensures b < count
  {
    PartOf(sequence - first, last - first + 1, count)
  }

  /** Every row of the extent belongs to exactly the bucket it is routed to. */
  lemma OnlyBucket(first: nat, last: nat, count: nat, sequence: nat)
    requires first <= sequence <= last && count > 0
    ensures forall b: nat :: InBucket(first, last, count, sequence, b) <==> b == BucketOf(first, last, count, sequence)
  {
    hide InPart, PartOf;
    OnlyPart(sequence - first, last - first + 1, count);
  }

  lemma BucketsAreMonotone(first: nat, last: nat, count: nat, a: nat, b: nat, i: nat, j: nat)
    requires a <= b && InBucket(first, last, count, a, i) && InBucket(first, last, count, b, j)
    ensures i <= j
  {
    hide InPart;
    PartsAreOrdered(a - first, b - first, last - first + 1, count, i, j);
  }

  ghost predicate InExtent(samples: seq<Sample>, first: nat, last: nat) {
    forall i :: 0 <= i < |samples| ==> first <= samples[i].sequence <= last
  }

  /** The samples of one bucket, in order. */
  ghost function Routed(samples: seq<Sample>, first: nat, last: nat, count: nat, b: nat): seq<Sample> {
    if samples == [] then []
    else
      var n := |samples| - 1;
      Routed(samples[..n], first, last, count, b) + Share(samples[n], first, last, count, b)
  }

  /** A bucket's share of one sample: the sample itself or nothing. */
  ghost function Share(s: Sample, first: nat, last: nat, count: nat, b: nat): seq<Sample> {
    if InBucket(first, last, count, s.sequence, b) then [s] else []
  }

  lemma RoutedNext(samples: seq<Sample>, s: Sample, first: nat, last: nat, count: nat)
    ensures forall b: nat ::
              Routed(samples + [s], first, last, count, b)
              == Routed(samples, first, last, count, b) + Share(s, first, last, count, b)
  {
    assert (samples + [s])[..|samples|] == samples;
  }

  lemma {:induction false} RoutedMembers(samples: seq<Sample>, first: nat, last: nat, count: nat, b: nat)
    ensures forall s :: s in Routed(samples, first, last, count, b) <==>
              s in samples && InBucket(first, last, count, s.sequence, b)
    decreases |samples|
  {
    hide InBucket;
    if samples != [] {
      var n := |samples| - 1;
      RoutedMembers(samples[..n], first, last, count, b);
      assert forall s :: s in samples <==> s in samples[..n] || s == samples[n];
    }
  }

  ghost predicate HasValue(s: Sample) {
    exists m :: 0 <= m < |s.values| && s.values[m].Some?
  }

  /** No sample of the bucket has a smaller value of the metric, and none with the same value comes earlier. */
  ghost predicate Lowest(samples: seq<Sample>, first: nat, last: nat, count: nat, b: nat, m: nat, s: Sample) {
    && m < |s.values| && s.values[m].Some?
    && forall t ::
         t in samples && InBucket(first, last, count, t.sequence, b) && m < |t.values| && t.values[m].Some? ==>
         s.values[m].value < t.values[m].value
         || (s.values[m].value == t.values[m].value && s.sequence <= t.sequence)
  }

  /** No sample of the bucket has a greater value of the metric, and none with the same value comes later. */
  ghost predicate Highest(samples: seq<Sample>, first: nat, last: nat, count: nat, b: nat, m: nat, s: Sample) {
    && m < |s.values| && s.values[m].Some?
    && forall t ::
         t in samples && InBucket(first, last, count, t.sequence, b) && m < |t.values| && t.values[m].Some? ==>
         t.values[m].value < s.values[m].value
         || (t.values[m].value == s.values[m].value && t.sequence <= s.sequence)
  }

  /** In the bucket its sequence falls into, the sample is the first lowest or the last highest of some metric. */
  ghost predicate Selected(samples: seq<Sample>, first: nat, last: nat, count: nat, s: Sample) {
    exists b: nat :: InBucket(first, last, count, s.sequence, b) && Extreme(samples, first, last, count, b, s)
  }

  ghost predicate Extreme(samples: seq<Sample>, first: nat, last: nat, count: nat, b: nat, s: Sample) {
    exists m: nat ::
      Lowest(samples, first, last, count, b, m, s) || Highest(samples, first, last, count, b, m, s)
  }

  /** Among the samples routed to a bucket the extreme ones are those of its part of the extent. */
  lemma ExtremeIsDeclared(samples: seq<Sample>, metrics: nat, first: nat, last: nat, count: nat, b: nat, k: nat)
    requires Shaped(samples, metrics)
    requires var routed := Routed(samples, first, last, count, b);
             k < |routed| && Shaped(routed, metrics) && Increasing(routed)
    ensures var routed := Routed(samples, first, last, count, b);
            IsExtreme(routed, metrics, k) <==> Extreme(samples, first, last, count, b, routed[k])
  {
    hide Routed, InBucket, IsMinimum, IsMaximum, Lowest, Highest;
    RoutedMembers(samples, first, last, count, b);
    var routed := Routed(samples, first, last, count, b);
    forall m: nat | m < metrics
      ensures IsMinimum(routed, metrics, m, k) <==> Lowest(samples, first, last, count, b, m, routed[k])
      ensures IsMaximum(routed, metrics, m, k) <==> Highest(samples, first, last, count, b, m, routed[k])
    {
      LowestIsMinimum(samples, routed, metrics, first, last, count, b, m, k);
      HighestIsMaximum(samples, routed, metrics, first, last, count, b, m, k);
    }
    forall m: nat | Lowest(samples, first, last, count, b, m, routed[k])
           || Highest(samples, first, last, count, b, m, routed[k])
      ensures m < metrics
    {
      MetricOf(samples, first, last, count, b, m, routed[k]);
    }
  }

  lemma MetricOf(samples: seq<Sample>, first: nat, last: nat, count: nat, b: nat, m: nat, s: Sample)
    requires Lowest(samples, first, last, count, b, m, s) || Highest(samples, first, last, count, b, m, s)
    ensures m < |s.values|
  {
  }

  lemma LowestIsMinimum(samples: seq<Sample>, routed: seq<Sample>, metrics: nat, first: nat, last: nat, count: nat,
                        b: nat,
                        m: nat, k: nat)
    requires Shaped(samples, metrics) && Shaped(routed, metrics) && Increasing(routed) && k < |routed| && m < metrics
    requires forall s :: s in routed <==> s in samples && InBucket(first, last, count, s.sequence, b)
    ensures IsMinimum(routed, metrics, m, k) <==> Lowest(samples, first, last, count, b, m, routed[k])
  {
    hide InBucket;
    assert forall j :: 0 <= j < |routed| ==> routed[j] in routed;
    if IsMinimum(routed, metrics, m, k) {
      forall t | t in samples && InBucket(first, last, count, t.sequence, b) && m < |t.values| && t.values[m].Some?
        ensures routed[k].values[m].value < t.values[m].value
                || (routed[k].values[m].value == t.values[m].value && routed[k].sequence <= t.sequence)
      {
        var j :| 0 <= j < |routed| && routed[j] == t;
      }
    }
  }

  lemma HighestIsMaximum(samples: seq<Sample>, routed: seq<Sample>, metrics: nat, first: nat, last: nat, count: nat,
                         b: nat, m: nat, k: nat)
    requires Shaped(samples, metrics) && Shaped(routed, metrics) && Increasing(routed) && k < |routed| && m < metrics
    requires forall s :: s in routed <==> s in samples && InBucket(first, last, count, s.sequence, b)
    ensures IsMaximum(routed, metrics, m, k) <==> Highest(samples, first, last, count, b, m, routed[k])
  {
    hide InBucket;
    assert forall j :: 0 <= j < |routed| ==> routed[j] in routed;
    if IsMaximum(routed, metrics, m, k) {
      forall t | t in samples && InBucket(first, last, count, t.sequence, b) && m < |t.values| && t.values[m].Some?
        ensures t.values[m].value < routed[k].values[m].value
                || (t.values[m].value == routed[k].values[m].value && t.sequence <= routed[k].sequence)
      {
        var j :| 0 <= j < |routed| && routed[j] == t;
      }
    }
  }

  // ---------------------------------------------------------------- output

  /** Iterates a bucket's rows in key order. */
  method SortedRows(rows: map<nat, Sample>) returns (sorted: seq<Sample>)
    requires forall q :: q in rows ==> rows[q].sequence == q
    ensures Increasing(sorted) && |sorted| == |rows.Keys|
    ensures forall s :: s in sorted <==> s.sequence in rows && rows[s.sequence] == s
  {
    sorted := [];
    var left := rows.Keys;
    while left != {}
      invariant left <= rows.Keys && |sorted| + |left| == |rows.Keys| && Increasing(sorted)
      invariant forall i, q :: 0 <= i < |sorted| && q in left ==> sorted[i].sequence < q
      invariant forall i :: 0 <= i < |sorted| ==> sorted[i].sequence in rows && rows[sorted[i].sequence] == sorted[i]
      invariant forall q :: q in rows && q !in left ==> rows[q] in sorted
      decreases |left|
    {
      var q := LeastOf(left);
      left := left - {q};
      sorted := sorted + [rows[q]];
    }
  }

  method LeastOf(keys: set<nat>) returns (least: nat)
    requires keys != {}
    ensures least in keys && forall q :: q in keys ==> least <= q
  {
    least :| least in keys;
    var left := keys - {least};
    while left != {}
      invariant left <= keys && least in keys
      invariant forall q :: q in keys && q !in left ==> least <= q
      decreases |left|
    {
      var q :| q in left;
      if q < least { least := q; }
      left := left - {q};
    }
  }

  lemma JoinIncreasing(a: seq<Sample>, b: seq<Sample>)
    requires Increasing(a) && Increasing(b)
    requires forall i, j :: 0 <= i < |a| && 0 <= j < |b| ==> a[i].sequence < b[j].sequence
    ensures Increasing(a + b)
  {
  }

  // --------------------------------------------------------------- sampler

  class MinMaxHistorySampler {
    const metrics: nat
    const first: nat
    const last: nat
    var sourcePoints: nat
    var buckets: seq<SampleBucket>
    ghost var observed: seq<Sample>

    ghost predicate Valid()
      reads this, buckets
    {
      && metrics > 0 && first <= last && |buckets| > 0
      && (forall b, c :: 0 <= b < c < |buckets| ==> buckets[b] != buckets[c])
      && InExtent(observed, first, last) && Increasing(observed) && Shaped(observed, metrics)
      && (forall i :: 0 <= i < |observed| ==> HasValue(observed[i]))
      && (forall b :: 0 <= b < |buckets| ==> buckets[b].Valid() && buckets[b].metrics == metrics)
      && (forall b :: 0 <= b < |buckets| ==> buckets[b].seen == Routed(observed, first, last, |buckets|, b))
      && sourcePoints == Min(|observed|, U64_MAX)
    }

    constructor (metrics: nat, first: nat, last: nat, buckets: seq<SampleBucket>)
      requires metrics > 0 && first <= last && |buckets| > 0
      requires forall b, c :: 0 <= b < c < |buckets| ==> buckets[b] != buckets[c]
      requires forall b :: 0 <= b < |buckets| ==>
                 buckets[b].Valid() && buckets[b].metrics == metrics && buckets[b].seen == []
      ensures Valid() && observed == [] && this.buckets == buckets
      ensures this.metrics == metrics && this.first == first && this.last == last
    {
      this.metrics, this.first, this.last := metrics, first, last;
      this.buckets, this.sourcePoints, this.observed := buckets, 0, [];
    }

    /** Routes one row of the stream to its bucket. */
    method Observe(s: Sample)
      requires Valid() && |s.values| == metrics
      requires forall i :: 0 <= i < |observed| ==> observed[i].sequence < s.sequence
      modifies this, buckets
      ensures Valid() && buckets == old(buckets)
      ensures observed == old(observed) + if first <= s.sequence <= last && HasValue(s) then [s] else []
    {
      hide BucketOf, InBucket, Routed, Increasing, Shaped, SampleBucket.Valid;
      if s.sequence < first || s.sequence > last { return; }
      if !(exists m :: 0 <= m < |s.values| && s.values[m].Some?) { return; }
      if sourcePoints < U64_MAX { sourcePoints := sourcePoints + 1; }
      var b := BucketOf(first, last, |buckets|, s.sequence);
      SeenNext(observed, s, metrics);
      assert InExtent(observed + [s], first, last);
      RoutedNext(observed, s, first, last, |buckets|);
      OnlyBucket(first, last, |buckets|, s.sequence);
      RoutedBelow(observed, first, last, |buckets|, b, s.sequence);
      buckets[b].Observe(s);
      observed := observed + [s];
    }

    /** The extreme samples of all buckets, in sequence order. */
    method Finish() returns (rows: seq<Sample>)
      requires Valid()
      ensures Increasing(rows)
      ensures forall s :: s in rows <==> s in observed && Selected(observed, first, last, |buckets|, s)
      ensures |rows| <= 2 * metrics * |buckets|
    {
      rows := [];
      var b := 0;
      assert Increasing(rows);
      hide *;
      while b < |buckets|
        invariant b <= |buckets| && Increasing(rows) && |rows| <= 2 * metrics * b
        invariant forall s :: s in rows <==> Output(observed, first, last, |buckets|, b, s)
      {
        var sorted := BucketRows(b);
        OutputNext(observed, first, last, |buckets|, b);
        OutputOrder(observed, rows, sorted, first, last, |buckets|, b);
        JoinIncreasing(rows, sorted);
        NextBudget(metrics, b);
        rows := rows + sorted;
        b := b + 1;
      }
      EverythingIsOutput();
    }

    lemma EverythingIsOutput()
      requires Valid()
      ensures forall s :: Output(observed, first, last, |buckets|, |buckets|, s) <==>
                s in observed && Selected(observed, first, last, |buckets|, s)
    {
      hide InBucket, Routed, Extreme, SampleBucket.Valid, BucketOf;
      forall s | s in observed
        ensures forall b: nat :: InBucket(first, last, |buckets|, s.sequence, b) ==> b < |buckets|
      {
        OnlyBucket(first, last, |buckets|, s.sequence);
      }
    }

    /** One bucket's rows in key order: its extreme samples. */
    method BucketRows(b: nat) returns (sorted: seq<Sample>)
      requires Valid() && b < |buckets|
      ensures Increasing(sorted) && |sorted| <= 2 * metrics
      ensures forall s :: s in sorted <==>
                && s in observed && InBucket(first, last, |buckets|, s.sequence, b)
                && Extreme(observed, first, last, |buckets|, b, s)
    {
      hide InBucket, Routed, Extreme, Increasing, Shaped, Summarized, Counted, Uses, HasValue;
      var bucket := buckets[b];
      sorted := SortedRows(bucket.rows);
      BucketOutput(bucket.ranges, bucket.references, bucket.rows, observed, metrics, first, last, |buckets|, b, sorted);
    }
  }

  /** The extreme samples of the first `n` buckets. */
  ghost predicate Output(samples: seq<Sample>, first: nat, last: nat, count: nat, n: nat, s: Sample) {
    && s in samples
    && exists b: nat ::
         b < n && InBucket(first, last, count, s.sequence, b) && Extreme(samples, first, last, count, b, s)
  }

  lemma OutputNext(samples: seq<Sample>, first: nat, last: nat, count: nat, n: nat)
    ensures forall s :: Output(samples, first, last, count, n + 1, s) <==>
              Output(samples, first, last, count, n, s)
              || (s in samples && InBucket(first, last, count, s.sequence, n)
                  && Extreme(samples, first, last, count, n, s))
    ensures forall s :: !Output(samples, first, last, count, 0, s)
  {
    hide InBucket, Extreme;
  }

  /** A sampler for an extent, unless the request cannot hold two rows per metric. */
  method NewSampler(metrics: nat, first: nat, last: nat, maxPoints: nat)
    returns (r: Result<MinMaxHistorySampler, SamplerError>)
    ensures r.Err? <==> metrics == 0 || first > last || maxPoints < 2 * metrics
    ensures r.Ok? ==> r.value.Valid() && r.value.observed == [] && fresh(r.value) && fresh(r.value.buckets)
    ensures r.Ok? ==> r.value.metrics == metrics && r.value.first == first && r.value.last == last
    ensures r.Ok? ==> |r.value.buckets| == maxPoints / (2 * metrics) && 2 * metrics * |r.value.buckets| <= maxPoints
  {
    if metrics == 0 || first > last || maxPoints < 2 * metrics { return Err(InvalidSegment); }
    var count := maxPoints / (2 * metrics);
    var buckets: seq<SampleBucket> := [];
    while |buckets| < count
      invariant |buckets| <= count && fresh(buckets)
      invariant forall b, c :: 0 <= b < c < |buckets| ==> buckets[b] != buckets[c]
      invariant forall b :: 0 <= b < |buckets| ==>
                  buckets[b].Valid() && buckets[b].metrics == metrics && buckets[b].seen == []
    {
      var bucket := new SampleBucket(metrics);
      buckets := buckets + [bucket];
    }
    var sampler := new MinMaxHistorySampler(metrics, first, last, buckets);
    return Ok(sampler);
  }

  lemma NextBudget(metrics: nat, b: nat)
    ensures 2 * metrics * (b + 1) == 2 * metrics * b + 2 * metrics
  {
  }

  lemma RoutedBelow(samples: seq<Sample>, first: nat, last: nat, count: nat, b: nat, sequence: nat)
    requires forall i :: 0 <= i < |samples| ==> samples[i].sequence < sequence
    ensures forall i :: 0 <= i < |Routed(samples, first, last, count, b)| ==>
              Routed(samples, first, last, count, b)[i].sequence < sequence
  {
    hide Routed, BucketOf;
    RoutedMembers(samples, first, last, count, b);
    var routed := Routed(samples, first, last, count, b);
    forall i | 0 <= i < |routed|
      ensures routed[i].sequence < sequence
    {
      assert routed[i] in routed;
      var j :| 0 <= j < |samples| && samples[j] == routed[i];
    }
  }

  lemma BucketOutput(ranges: seq<MetricRange>, references: map<nat, nat>, rows: map<nat, Sample>, samples: seq<Sample>,
                     metrics: nat, first: nat, last: nat, count: nat, b: nat, sorted: seq<Sample>)
    requires Shaped(samples, metrics)
    requires var routed := Routed(samples, first, last, count, b);
             && Increasing(routed) && Shaped(routed, metrics) && Summarized(ranges, routed, metrics)
             && Counted(ranges, references) && Kept(rows, references, routed)
    requires |sorted| == |rows.Keys| && forall s :: s in sorted <==> s.sequence in rows && rows[s.sequence] == s
    ensures |sorted| <= 2 * metrics
    ensures forall s :: s in sorted <==>
              && s in samples && InBucket(first, last, count, s.sequence, b)
              && Extreme(samples, first, last, count, b, s)
  {
    hide Routed, InBucket, Uses, IsExtreme, Extreme;
    var routed := Routed(samples, first, last, count, b);
    RoutedMembers(samples, first, last, count, b);
    forall q | q in rows.Keys
      ensures Uses(ranges, q) > 0
    {
      assert Count(references, q) > 0;
    }
    FewUsed(ranges, rows.Keys);
    forall k: nat | k < |routed|
      ensures routed[k] in sorted <==> Extreme(samples, first, last, count, b, routed[k])
    {
      KeptIsExtreme(ranges, references, rows, routed, metrics, k);
      ExtremeIsDeclared(samples, metrics, first, last, count, b, k);
    }
    assert forall s :: s in sorted ==> s in routed;
    forall s | s in routed
      ensures s in sorted <==> Extreme(samples, first, last, count, b, s)
    {
      var k :| 0 <= k < |routed| && routed[k] == s;
    }
  }

  /** Rows of earlier buckets come before rows of later ones. */
  lemma OutputOrder(samples: seq<Sample>, rows: seq<Sample>, sorted: seq<Sample>, first: nat, last: nat, count: nat,
                    b: nat)
    requires forall s :: s in rows ==> Output(samples, first, last, count, b, s)
    requires forall s :: s in sorted ==> InBucket(first, last, count, s.sequence, b)
    ensures forall i, j :: 0 <= i < |rows| && 0 <= j < |sorted| ==> rows[i].sequence < sorted[j].sequence
  {
    hide InBucket, Extreme;
    forall i, j | 0 <= i < |rows| && 0 <= j < |sorted|
      ensures rows[i].sequence < sorted[j].sequence
    {
      assert rows[i] in rows && sorted[j] in sorted;
      var c: nat :| c < b && InBucket(first, last, count, rows[i].sequence, c);
      if rows[i].sequence >= sorted[j].sequence {
        BucketsAreMonotone(first, last, count, sorted[j].sequence, rows[i].sequence, b, c);
      }
    }
  }
}

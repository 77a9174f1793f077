/** The sampled history of a run: one scan over the pages past a cursor, fed to the min/max sampler. */
module SampledHistory {
  import opened Wrappers
  import opened MetricLog
  import SegmentCatalog
  import opened CatalogStore
  import opened PagedReads
  import opened MinMaxSampler
  import opened HistorySampler
  import opened ChartProjection

  /** The samples of an extent that carry some requested metric. */
  ghost function Wanted(samples: seq<Sample>, first: nat, last: nat): seq<Sample> {
    if samples == [] then []
    else
      var n := |samples| - 1;
      Wanted(samples[..n], first, last)
      + if first <= samples[n].sequence <= last && HasValue(samples[n]) then [samples[n]] else []
  }

  lemma {:induction false} WantedConcat(a: seq<Sample>, b: seq<Sample>, first: nat, last: nat)
    ensures Wanted(a + b, first, last) == Wanted(a, first, last) + Wanted(b, first, last)
    decreases |b|
  {
    if b == [] {
      assert a + b == a;
    } else {
      var n := |b| - 1;
      assert (a + b)[..|a + b| - 1] == a + b[..n] && (a + b)[|a + b| - 1] == b[n];
      WantedConcat(a, b[..n], first, last);
    }
  }

  lemma {:induction false} NoneWanted(samples: seq<Sample>, first: nat, last: nat)
    requires forall i :: 0 <= i < |samples| ==> samples[i].sequence < first || last < samples[i].sequence
    ensures Wanted(samples, first, last) == []
    decreases |samples|
  {
    if samples != [] { NoneWanted(samples[..|samples| - 1], first, last); }
  }

  lemma {:induction false} WantedMembers(samples: seq<Sample>, first: nat, last: nat)
    ensures forall i :: 0 <= i < |Wanted(samples, first, last)| ==> Wanted(samples, first, last)[i] in samples
    decreases |samples|
  {
    if samples != [] {
      var n := |samples| - 1;
      WantedMembers(samples[..n], first, last);
      assert forall s :: s in samples[..n] ==> s in samples;
    }
  }

  /** Segments before the first unread one, and segments past the watermark, contribute nothing. */
  lemma OnlyTheExtentMatters(initial: seq<Segment>, now: seq<Segment>, after: Option<nat>, k: nat, m: nat,
                             keys: seq<string>)
    requires Tiled(now) && initial <= now && FirstUnread(initial, CursorOf(after), k) && |initial| <= k + m <= |now|
    ensures ExtentAfter(initial, after).Some?
    ensures var extent := ExtentAfter(initial, after).value;
            Wanted(Project(LogOf(now[k..k + m]), keys), extent.first, extent.last)
            == Wanted(Project(LogOf(initial), keys), extent.first, extent.last)
  {
    hide *;
    Unread(initial, CursorOf(after), k);
    TiledPrefix(initial, now);
    var extra := ScanReadsTheLog(initial, now, CursorOf(after), k, m);
    UnreadExtent(initial, after, k);
    var extent := ExtentAfter(initial, after).value;
    assert initial == initial[..k] + initial[k..];
    LogConcat(initial[..k], initial[k..]);
    ProjectSplit(LogOf(initial[..k]), LogOf(initial[k..]), keys);
    ProjectSplit(LogOf(initial[k..]), extra, keys);
    WantedConcat(Project(LogOf(initial[..k]), keys), Project(LogOf(initial[k..]), keys), extent.first, extent.last);
    WantedConcat(Project(LogOf(initial[k..]), keys), Project(extra, keys), extent.first, extent.last);
    ReadBefore(initial, k, CursorOf(after));
    SequencesKept(LogOf(initial[..k]), keys);
    SequencesKept(extra, keys);
    NoneWanted(Project(LogOf(initial[..k]), keys), extent.first, extent.last);
    NoneWanted(Project(extra, keys), extent.first, extent.last);
  }

  lemma SequencesKept(rows: seq<Row>, keys: seq<string>)
    ensures forall i :: 0 <= i < |rows| ==> Project(rows, keys)[i].sequence == rows[i].sequence
  {
  }

  lemma UnreadExtent(initial: seq<Segment>, after: Option<nat>, k: nat)
    requires Tiled(initial) && FirstUnread(initial, CursorOf(after), k)
    ensures ExtentAfter(initial, after).Some?
    ensures CursorOf(after) < ExtentAfter(initial, after).value.first
    ensures ExtentAfter(initial, after).value.last == initial[|initial| - 1].last
    ensures CursorOf(after) < initial[|initial| - 1].last
    ensures ExtentAfter(initial, after).value.first <= ExtentAfter(initial, after).value.last
  {
    hide Tiled, ExtentAfter;
    ExtentOfTiled(initial, after);
    if k < |initial| - 1 { FirstsIncrease(initial, k, |initial| - 1); }
    if |initial| > 1 { FirstsIncrease(initial, 0, |initial| - 1); }
    TiledDescribes(initial, 0);
  }

  lemma ReadBefore(initial: seq<Segment>, k: nat, after: int)
    requires Tiled(initial) && FirstUnread(initial, after, k)
    ensures forall i :: 0 <= i < |LogOf(initial[..k])| ==> LogOf(initial[..k])[i].sequence <= after
  {
    hide LogOf, Describes;
    TiledSlice(initial, 0, k);
    assert initial[0..k] == initial[..k];
    LogEndsBefore(initial[..k], after);
  }

  /** Rows of consecutive segments arrive in sequence order. */
  lemma ScannedInOrder(now: seq<Segment>, k: nat, m: nat, keys: seq<string>)
    requires Tiled(now) && k + m <= |now|
    ensures Increasing(Project(LogOf(now[k..k + m]), keys))
  {
    hide LogOf, Describes;
    TiledSlice(now, k, k + m);
    LogIsAscending(now[k..k + m]);
    SequencesKept(LogOf(now[k..k + m]), keys);
  }

  method ObserveAll(sampler: MinMaxHistorySampler, samples: seq<Sample>)
    requires sampler.Valid() && sampler.observed == [] && Shaped(samples, sampler.metrics) && Increasing(samples)
    modifies sampler, sampler.buckets
    ensures sampler.Valid() && sampler.buckets == old(sampler.buckets)
    ensures sampler.observed == Wanted(samples, sampler.first, sampler.last)
  {
    var n := 0;
    assert Wanted(samples[..0], sampler.first, sampler.last) == [];
    assert forall i :: 0 <= i < |samples| ==> |samples[i].values| == sampler.metrics;
    hide *;
    while n < |samples|
      invariant n <= |samples| && sampler.Valid() && sampler.buckets == old(sampler.buckets)
      invariant sampler.observed == Wanted(samples[..n], sampler.first, sampler.last)
    {
      ObservedBefore(samples, n, sampler.first, sampler.last);
      sampler.Observe(samples[n]);
      n := n + 1;
    }
    assert samples[..n] == samples;
  }

  lemma ObservedBefore(samples: seq<Sample>, n: nat, first: nat, last: nat)
    requires Increasing(samples) && n < |samples|
    ensures forall i :: 0 <= i < |Wanted(samples[..n], first, last)| ==>
              Wanted(samples[..n], first, last)[i].sequence < samples[n].sequence
    ensures Wanted(samples[..n + 1], first, last)
            == Wanted(samples[..n], first, last)
               + if first <= samples[n].sequence <= last && HasValue(samples[n]) then [samples[n]] else []
  {
    assert samples[..n + 1][..n] == samples[..n];
    hide HasValue;
    WantedMembers(samples[..n], first, last);
    hide Wanted;
    var wanted := Wanted(samples[..n], first, last);
    forall i | 0 <= i < |wanted|
      ensures wanted[i].sequence < samples[n].sequence
    {
      var j :| 0 <= j < n && samples[..n][j] == wanted[i];
    }
  }

  datatype Sampled = Sampled(rows: seq<Sample>, sourcePoints: nat, sourceLast: Option<nat>)

  // -------------------------------------------- the answer, said of the rows

  /** The sample is the row's position with its values of the keys. */
  predicate IsSampleOf(s: Sample, r: Row, keys: seq<string>) {
    && s.sequence == r.sequence && s.step == r.step && s.timestamp == r.timestamp && |s.values| == |keys|
    && forall m :: 0 <= m < |keys| ==>
         && (s.values[m].Some? <==> keys[m] in r.values)
         && (keys[m] in r.values ==> s.values[m] == Some(r.values[keys[m]]))
  }

  /** No row of the bucket has a lesser value of the key, and none earlier has the same. */
  ghost predicate IsLowest(log: seq<Row>, first: nat, last: nat, count: nat, b: nat, key: string, r: Row) {
    key in r.values && forall t :: t in log && InBucket(first, last, count, t.sequence, b) && key in t.values ==>
      r.values[key] < t.values[key] || (r.values[key] == t.values[key] && r.sequence <= t.sequence)
  }

  /** No row of the bucket has a greater value of the key, and none later has the same. */
  ghost predicate IsHighest(log: seq<Row>, first: nat, last: nat, count: nat, b: nat, key: string, r: Row) {
    key in r.values && forall t :: t in log && InBucket(first, last, count, t.sequence, b) && key in t.values ==>
      t.values[key] < r.values[key] || (t.values[key] == r.values[key] && t.sequence <= r.sequence)
  }

  /** The row has the lowest or the highest value of some key in its bucket. */
  ghost predicate Stands(log: seq<Row>, keys: seq<string>, first: nat, last: nat, count: nat, r: Row) {
    exists b: nat, m: nat :: m < |keys| && InBucket(first, last, count, r.sequence, b)
      && (IsLowest(log, first, last, count, b, keys[m], r) || IsHighest(log, first, last, count, b, keys[m], r))
  }

  ghost function Counted(log: seq<Row>, keys: seq<string>, first: nat, last: nat): set<nat> {
    set i | 0 <= i < |log| && first <= log[i].sequence <= last && HasKey(log[i], keys)
  }

  /** Exactly the rows that stand out among those past the cursor, in order, and how many there were. */
  ghost predicate IsSampling(log: seq<Row>, keys: seq<string>, after: Option<nat>, maxPoints: nat, a: Sampled)
    requires keys != []
  {
    if log == [] || (after.Some? && log[|log| - 1].sequence <= after.value) then a == Sampled([], 0, None)
    else
      var first := if after.Some? then Max(after.value + 1, log[0].sequence) else log[0].sequence;
      var last := log[|log| - 1].sequence;
      IsExtentSampling(log, keys, first, last, maxPoints, a)
  }

  ghost predicate IsExtentSampling(log: seq<Row>, keys: seq<string>, first: nat, last: nat, maxPoints: nat, a: Sampled)
    requires keys != []
  {
    var count := maxPoints / (2 * |keys|);
    && count > 0 && a.sourceLast == Some(last) && a.sourcePoints == Min(|Counted(log, keys, first, last)|, U64_MAX)
    && Increasing(a.rows) && |a.rows| <= maxPoints
    && (forall s :: s in a.rows ==>
          exists r :: r in log && IsSampleOf(s, r, keys) && Stands(log, keys, first, last, count, r))
    && forall r :: r in log && Stands(log, keys, first, last, count, r) ==>
         exists s :: s in a.rows && IsSampleOf(s, r, keys)
  }

  lemma ProjectionIsSample(log: seq<Row>, keys: seq<string>, i: nat)
    requires i < |log|
    ensures IsSampleOf(Project(log, keys)[i], log[i], keys)
    ensures HasValue(Project(log, keys)[i]) <==> HasKey(log[i], keys)
  {
    var s := Project(log, keys)[i];
    assert s == ProjectRow(log[i], keys);
    forall m | 0 <= m < |keys|
      ensures s.values[m].Some? <==> keys[m] in log[i].values
    {
    }
  }

  lemma {:induction false} WantedAre(samples: seq<Sample>, first: nat, last: nat)
    ensures forall s :: s in Wanted(samples, first, last) <==>
              s in samples && first <= s.sequence <= last && HasValue(s)
    decreases |samples|
  {
    hide HasValue;
    if samples != [] {
      var n := |samples| - 1;
      WantedAre(samples[..n], first, last);
      assert forall s :: s in samples <==> s in samples[..n] || s == samples[n];
    }
  }

  lemma {:induction false} WantedCount(log: seq<Row>, keys: seq<string>, first: nat, last: nat)
    ensures |Wanted(Project(log, keys), first, last)| == |Counted(log, keys, first, last)|
    decreases |log|
  {
    hide HasValue, HasKey, ProjectRow;
    if log != [] {
      var n := |log| - 1;
      WantedCount(log[..n], keys, first, last);
      ProjectInit(log, keys);
      ProjectionIsSample(log, keys, n);
      var before := Counted(log[..n], keys, first, last);
      if first <= log[n].sequence <= last && HasKey(log[n], keys) {
        assert Counted(log, keys, first, last) == before + {n};
      } else {
        assert Counted(log, keys, first, last) == before;
      }
    }
  }

  /** Samples and rows go together: every wanted sample is one of a row, and every row with a key is wanted. */
  ghost predicate Matches(log: seq<Row>, keys: seq<string>, first: nat, last: nat, wanted: seq<Sample>) {
    && (forall s :: s in wanted ==> exists r :: r in log && IsSampleOf(s, r, keys))
    && (forall r :: r in log && first <= r.sequence <= last && HasKey(r, keys) ==>
          exists s :: s in wanted && IsSampleOf(s, r, keys))
  }

  lemma WantedMatches(log: seq<Row>, keys: seq<string>, first: nat, last: nat)
    ensures Matches(log, keys, first, last, Wanted(Project(log, keys), first, last))
  {
    hide Wanted, IsSampleOf, HasKey, HasValue, ProjectRow;
    var samples := Project(log, keys);
    WantedAre(samples, first, last);
    forall i | 0 <= i < |log|
      ensures IsSampleOf(samples[i], log[i], keys) && (HasValue(samples[i]) <==> HasKey(log[i], keys))
      ensures samples[i].sequence == log[i].sequence && samples[i] in samples
    {
      ProjectionIsSample(log, keys, i);
      SameSequence(samples[i], log[i], keys);
    }
  }

  lemma SameSequence(s: Sample, r: Row, keys: seq<string>)
    requires IsSampleOf(s, r, keys)
    ensures s.sequence == r.sequence
  {
  }

  lemma KeyOfRow(r: Row, keys: seq<string>, m: nat)
    requires m < |keys| && keys[m] in r.values
    ensures HasKey(r, keys)
  {
  }

  lemma SampleOfRow(log: seq<Row>, keys: seq<string>, first: nat, last: nat, count: nat, wanted: seq<Sample>, b: nat,
                    m: nat, r: Row)
    returns (s: Sample)
    requires Matches(log, keys, first, last, wanted) && m < |keys|
    requires r in log && InBucket(first, last, count, r.sequence, b) && keys[m] in r.values
    ensures s in wanted && s.sequence == r.sequence && |s.values| == |keys| && s.values[m] == Some(r.values[keys[m]])
  {
    KeyOfRow(r, keys, m);
    hide HasKey;
    s :| s in wanted && IsSampleOf(s, r, keys);
  }

  lemma RowOfSample(log: seq<Row>, keys: seq<string>, first: nat, last: nat, wanted: seq<Sample>, m: nat, s: Sample)
    returns (r: Row)
    requires Matches(log, keys, first, last, wanted) && m < |keys|
    requires s in wanted && m < |s.values| && s.values[m].Some?
    ensures r in log && s.sequence == r.sequence && keys[m] in r.values && s.values[m] == Some(r.values[keys[m]])
  {
    hide HasKey;
    r :| r in log && IsSampleOf(s, r, keys);
  }

  /** Standing out among the wanted samples is standing out among the rows. */
  lemma LowestMeans(log: seq<Row>, keys: seq<string>, first: nat, last: nat, count: nat, wanted: seq<Sample>, b: nat,
                    m: nat, s: Sample, r: Row)
    requires Matches(log, keys, first, last, wanted) && m < |keys| && IsSampleOf(s, r, keys)
    ensures Lowest(wanted, first, last, count, b, m, s) <==> IsLowest(log, first, last, count, b, keys[m], r)
  {
    hide InBucket, Matches;
    if Lowest(wanted, first, last, count, b, m, s) {
      forall t | t in log && InBucket(first, last, count, t.sequence, b) && keys[m] in t.values
        ensures r.values[keys[m]] < t.values[keys[m]]
                || (r.values[keys[m]] == t.values[keys[m]] && r.sequence <= t.sequence)
      {
        var u := SampleOfRow(log, keys, first, last, count, wanted, b, m, t);
      }
    }
    if IsLowest(log, first, last, count, b, keys[m], r) {
      forall t | t in wanted && InBucket(first, last, count, t.sequence, b) && m < |t.values| && t.values[m].Some?
        ensures s.values[m].value < t.values[m].value
                || (s.values[m].value == t.values[m].value && s.sequence <= t.sequence)
      {
        var u := RowOfSample(log, keys, first, last, wanted, m, t);
      }
    }
  }

  lemma HighestMeans(log: seq<Row>, keys: seq<string>, first: nat, last: nat, count: nat, wanted: seq<Sample>, b: nat,
                     m: nat, s: Sample, r: Row)
    requires Matches(log, keys, first, last, wanted) && m < |keys| && IsSampleOf(s, r, keys)
    ensures Highest(wanted, first, last, count, b, m, s) <==> IsHighest(log, first, last, count, b, keys[m], r)
  {
    hide InBucket, Matches;
    if Highest(wanted, first, last, count, b, m, s) {
      forall t | t in log && InBucket(first, last, count, t.sequence, b) && keys[m] in t.values
        ensures t.values[keys[m]] < r.values[keys[m]]
                || (t.values[keys[m]] == r.values[keys[m]] && t.sequence <= r.sequence)
      {
        var u := SampleOfRow(log, keys, first, last, count, wanted, b, m, t);
      }
    }
    if IsHighest(log, first, last, count, b, keys[m], r) {
      forall t | t in wanted && InBucket(first, last, count, t.sequence, b) && m < |t.values| && t.values[m].Some?
        ensures t.values[m].value < s.values[m].value
                || (t.values[m].value == s.values[m].value && t.sequence <= s.sequence)
      {
        var u := RowOfSample(log, keys, first, last, wanted, m, t);
      }
    }
  }

  lemma SelectedMeans(log: seq<Row>, keys: seq<string>, first: nat, last: nat, count: nat, wanted: seq<Sample>,
                      s: Sample, r: Row)
    requires Matches(log, keys, first, last, wanted) && IsSampleOf(s, r, keys)
    ensures Selected(wanted, first, last, count, s) <==> Stands(log, keys, first, last, count, r)
  {
    hide Lowest, Highest, IsLowest, IsHighest, InBucket, Matches;
    forall b: nat, m: nat | m < |keys|
      ensures Lowest(wanted, first, last, count, b, m, s) <==> IsLowest(log, first, last, count, b, keys[m], r)
      ensures Highest(wanted, first, last, count, b, m, s) <==> IsHighest(log, first, last, count, b, keys[m], r)
    {
      LowestMeans(log, keys, first, last, count, wanted, b, m, s, r);
      HighestMeans(log, keys, first, last, count, wanted, b, m, s, r);
    }
    forall b: nat, m: nat | m >= |keys|
      ensures !Lowest(wanted, first, last, count, b, m, s) && !Highest(wanted, first, last, count, b, m, s)
    {
      NoSuchValue(wanted, first, last, count, b, m, s);
    }
  }

  lemma NoSuchValue(wanted: seq<Sample>, first: nat, last: nat, count: nat, b: nat, m: nat, s: Sample)
    requires m >= |s.values|
    ensures !Lowest(wanted, first, last, count, b, m, s) && !Highest(wanted, first, last, count, b, m, s)
  {
  }

  /**
    `sampled_history`: of the rows past the cursor that were stored when the query began,
    exactly the extreme ones of each bucket, in order, at most `maxPoints` of them.
   */
  method Query(view: nat -> seq<Segment>, keys: seq<string>, after: Option<nat>, maxPoints: nat)
    returns (r: Result<Sampled, SamplerError>)
    requires OnlyAppended(view) && keys != []
    ensures r.Err? <==> ExtentAfter(view(0), after).Some? && maxPoints < 2 * |keys|
    ensures r.Ok? && ExtentAfter(view(0), after).None? ==> r.value == Sampled([], 0, None)
    ensures r.Ok? && ExtentAfter(view(0), after).Some? ==>
              var extent := ExtentAfter(view(0), after).value;
              var wanted := Wanted(Project(LogOf(view(0)), keys), extent.first, extent.last);
              var count := maxPoints / (2 * |keys|);
              && r.value.sourceLast == Some(extent.last) && r.value.sourcePoints == Min(|wanted|, U64_MAX)
              && Increasing(r.value.rows) && |r.value.rows| <= maxPoints
              && count > 0 && InExtent(wanted, extent.first, extent.last)
              && forall s :: s in r.value.rows <==>
                   s in wanted && Selected(wanted, extent.first, extent.last, count, s)
    ensures r.Ok? ==> IsSampling(LogOf(view(0)), keys, after, maxPoints, r.value)
  {
    hide *;
    FirstIsTiled(view);
    ExtentOfRows(view(0), after);
    var extent := ExtentAfter(view(0), after);
    if extent.None? {
      NothingSampled(LogOf(view(0)), keys, after, maxPoints);
      return Ok(Sampled([], 0, None));
    }
    ghost var first: nat;
    first := StartOfScan(view, after);
    var created := NewSampler(|keys|, extent.value.first, extent.value.last, maxPoints);
    if created.Err? { return Err(InvalidSegment); }
    var sampler := created.value;
    var visited, stuck;
    ghost var k, n;
    visited, stuck, k, n := ScanPages(view, after, extent.value.last);
    ViewsGrow(view, 0, n);
    var samples := Project(LogOf(visited), keys);
    VisitedFits(view(n), k, visited);
    OnlyTheExtentMatters(view(0), view(n), after, k, |visited|, keys);
    ScannedInOrder(view(n), k, |visited|, keys);
    ObserveAll(sampler, samples);
    var rows := sampler.Finish();
    PointsAreCounted(sampler);
    r := Ok(Sampled(rows, sampler.sourcePoints, Some(extent.value.last)));
    SamplingMeans(LogOf(view(0)), keys, extent.value.first, extent.value.last, maxPoints, r.value);
    SamplingOfExtent(LogOf(view(0)), keys, after, maxPoints, r.value);
  }

  lemma FirstIsTiled(view: nat -> seq<Segment>)
    requires OnlyAppended(view)
    ensures Tiled(view(0))
  {
  }

  lemma NothingSampled(log: seq<Row>, keys: seq<string>, after: Option<nat>, maxPoints: nat)
    requires keys != [] && (log == [] || (after.Some? && log[|log| - 1].sequence <= after.value))
    ensures IsSampling(log, keys, after, maxPoints, Sampled([], 0, None))
  {
  }

  lemma SamplingOfExtent(log: seq<Row>, keys: seq<string>, after: Option<nat>, maxPoints: nat, a: Sampled)
    requires keys != [] && log != [] && !(after.Some? && log[|log| - 1].sequence <= after.value)
    requires IsExtentSampling(log, keys, if after.Some? then Max(after.value + 1, log[0].sequence) else log[0].sequence,
                              log[|log| - 1].sequence, maxPoints, a)
    ensures IsSampling(log, keys, after, maxPoints, a)
  {
    hide IsExtentSampling;
  }

  /** The samples selected among the wanted ones are the rows that stand out. */
  lemma SamplingMeans(log: seq<Row>, keys: seq<string>, first: nat, last: nat, maxPoints: nat, a: Sampled)
    requires keys != []
    requires var wanted, count := Wanted(Project(log, keys), first, last), maxPoints / (2 * |keys|);
             && count > 0 && a.sourceLast == Some(last) && a.sourcePoints == Min(|wanted|, U64_MAX)
             && Increasing(a.rows) && |a.rows| <= maxPoints
             && forall s :: s in a.rows <==> s in wanted && Selected(wanted, first, last, count, s)
    ensures IsExtentSampling(log, keys, first, last, maxPoints, a)
  {
    hide Wanted, IsSampleOf, Selected, Stands, Counted;
    var wanted, count := Wanted(Project(log, keys), first, last), maxPoints / (2 * |keys|);
    WantedMatches(log, keys, first, last);
    WantedCount(log, keys, first, last);
    forall s | s in a.rows
      ensures exists r :: r in log && IsSampleOf(s, r, keys) && Stands(log, keys, first, last, count, r)
    {
      var r :| r in log && IsSampleOf(s, r, keys);
      SelectedMeans(log, keys, first, last, count, wanted, s, r);
    }
    forall r | r in log && Stands(log, keys, first, last, count, r)
      ensures exists s :: s in a.rows && IsSampleOf(s, r, keys)
    {
      StandingIsWanted(log, keys, first, last, count, r);
      var s :| s in wanted && IsSampleOf(s, r, keys);
      SelectedMeans(log, keys, first, last, count, wanted, s, r);
    }
  }

  lemma StandingIsWanted(log: seq<Row>, keys: seq<string>, first: nat, last: nat, count: nat, r: Row)
    requires Stands(log, keys, first, last, count, r)
    ensures first <= r.sequence <= last && HasKey(r, keys)
  {
    var b: nat, m: nat :| m < |keys| && InBucket(first, last, count, r.sequence, b)
      && (IsLowest(log, first, last, count, b, keys[m], r) || IsHighest(log, first, last, count, b, keys[m], r));
    KeyOfRow(r, keys, m);
  }

  /** The extent past the cursor, said of the rows. */
  lemma ExtentOfRows(initial: seq<Segment>, after: Option<nat>)
    requires Tiled(initial)
    ensures var log := LogOf(initial);
            ExtentAfter(initial, after)
            == if log == [] || (after.Some? && log[|log| - 1].sequence <= after.value) then None
               else Some(SegmentCatalog.Extent(if after.Some? then Max(after.value + 1, log[0].sequence)
                                               else log[0].sequence,
                                log[|log| - 1].sequence))
  {
    hide Tiled;
    if initial == [] {
      assert Paths(initial) == [];
    } else {
      TiledLogIsConsecutive(initial);
      hide LogOf;
      ExtentOfTiled(initial, after);
    }
  }

  lemma PointsAreCounted(sampler: MinMaxHistorySampler)
    requires sampler.Valid()
    ensures sampler.sourcePoints == Min(|sampler.observed|, U64_MAX)
    ensures InExtent(sampler.observed, sampler.first, sampler.last) && |sampler.buckets| > 0
  {
  }

  lemma StartOfScan(view: nat -> seq<Segment>, after: Option<nat>) returns (k: nat)
    requires OnlyAppended(view) && ExtentAfter(view(0), after).Some?
    ensures view(0) != [] && view(0)[|view(0)| - 1].last == ExtentAfter(view(0), after).value.last
    ensures CursorOf(after) < ExtentAfter(view(0), after).value.last
    ensures ExtentAfter(view(0), after).value.first <= ExtentAfter(view(0), after).value.last
  {
    hide *;
    ViewsGrow(view, 0, 0);
    NothingUnread(view(0), after);
    k := AfterIsSuffix(view(0), CursorOf(after));
    IsFirstUnread(view(0), CursorOf(after), k);
    UnreadExtent(view(0), after, k);
  }

  lemma NothingUnread(initial: seq<Segment>, after: Option<nat>)
    requires Tiled(initial)
    ensures ExtentAfter(initial, after).Some? ==> initial != [] && CursorOf(after) < initial[|initial| - 1].last
  {
    hide Tiled, After;
    if initial == [] || initial[|initial| - 1].last <= CursorOf(after) { AfterNothing(initial, CursorOf(after)); }
  }
}

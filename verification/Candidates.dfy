/**
  Which adjacent segments the catalog offers for compaction: the seed query over
  four-segment windows and the greedy extension of the window it finds.
 */
module CompactionCandidates {
  import opened Wrappers
  import opened MetricLog
  import opened SegmentCatalog

  /** What a compaction input must satisfy: adjacent, one schema, similar sizes, small in total. */
  predicate Compactable(c: seq<Segment>, target: nat) {
    && Adjacent(c)
    && (forall i :: 0 <= i < |c| ==> c[i].rowCount < target)
    && Comparable(c)
    && TotalRows(c) <= target
  }

  predicate Comparable(c: seq<Segment>) {
    forall i, j :: 0 <= i < |c| && 0 <= j < |c| ==> c[i].rowCount <= MAX_COMPACTION_SIZE_RATIO * c[j].rowCount
  }

  /** Four consecutive catalog rows that could be compacted together. */
  ghost predicate Qualifies(segments: seq<Segment>, i: nat, target: nat) {
    && i + MIN_COMPACTION_INPUT_SEGMENTS <= |segments|
    && Compactable(segments[i..i + MIN_COMPACTION_INPUT_SEGMENTS], target)
  }

  /** `WHERE row_count < target`, applied before the window functions look ahead. */
  function Small(segments: seq<Segment>, target: nat): seq<Segment> {
    if segments == [] then []
    else if segments[0].rowCount < target then [segments[0]] + Small(segments[1..], target)
    else Small(segments[1..], target)
  }

  function Least(a: nat, b: nat, c: nat, d: nat): nat {
    Min(Min(a, b), Min(c, d))
  }

  function Greatest(a: nat, b: nat, c: nat, d: nat): nat {
    Max(Max(a, b), Max(c, d))
  }

  /** The condition the seed query puts on a row and the three rows that follow it. */
  predicate SeedRow(small: seq<Segment>, i: nat, target: nat) {
    && i + 3 < |small|
    && var a, b, c, d := small[i], small[i + 1], small[i + 2], small[i + 3];
    && a.signature == b.signature && a.signature == c.signature && a.signature == d.signature
    && a.last + 1 == b.first && b.last + 1 == c.first && c.last + 1 == d.first
    && a.rowCount + b.rowCount + c.rowCount + d.rowCount <= target
    && Greatest(a.rowCount, b.rowCount, c.rowCount, d.rowCount)
       <= Least(a.rowCount, b.rowCount, c.rowCount, d.rowCount) * MAX_COMPACTION_SIZE_RATIO
  }

  /** `ORDER BY first_sequence LIMIT 1` over the rows that satisfy the condition, from one row on. */
  function SeedFrom(small: seq<Segment>, from: nat, target: nat): Option<nat>
    requires from <= |small|
    decreases |small| - from
  {
    if from == |small| then None
    else if SeedRow(small, from, target) then Some(from)
    else SeedFrom(small, from + 1, target)
  }

  function Seed(small: seq<Segment>, target: nat): Option<Segment> {
    match SeedFrom(small, 0, target)
    case None => None
    case Some(i) => if i < |small| then Some(small[i]) else None
  }

  /** `WHERE first_sequence >= ? ORDER BY first_sequence LIMIT ?` */
  function StartingAt(segments: seq<Segment>, first: nat): seq<Segment> {
    if segments == [] || first <= segments[0].first then segments else StartingAt(segments[1..], first)
  }

  // ------------------------------------------------------------------ laws

  lemma {:induction false} SeedFromIsFirst(small: seq<Segment>, from: nat, target: nat)
    requires from <= |small|
    ensures SeedFrom(small, from, target).None? ==> forall i: nat :: from <= i ==> !SeedRow(small, i, target)
    ensures SeedFrom(small, from, target).Some? ==>
              var i := SeedFrom(small, from, target).value;
              && from <= i && i + 4 <= |small| && SeedRow(small, i, target)
              && forall j: nat :: from <= j < i ==> !SeedRow(small, j, target)
    decreases |small| - from
  {
    if from < |small| {
      SeedFromIsFirst(small, from + 1, target);
      SeedRowFits(small, target);
      hide SeedRow;
    } else {
      SeedRowFits(small, target);
    }
  }

  lemma SeedRowFits(small: seq<Segment>, target: nat)
    ensures forall i: nat :: SeedRow(small, i, target) ==> i + 4 <= |small|
  {
  }

  lemma {:induction false} SmallConcat(a: seq<Segment>, b: seq<Segment>, target: nat)
    ensures Small(a + b, target) == Small(a, target) + Small(b, target)
    decreases |a|
  {
    if a == [] {
      assert a + b == b;
    } else {
      assert (a + b)[1..] == a[1..] + b;
      SmallConcat(a[1..], b, target);
    }
  }

  lemma {:induction false} SmallOfSmall(a: seq<Segment>, target: nat)
    requires forall i :: 0 <= i < |a| ==> a[i].rowCount < target
    ensures Small(a, target) == a
  {
    if a != [] { SmallOfSmall(a[1..], target); }
  }

  lemma {:induction false} SmallMembers(segments: seq<Segment>, target: nat)
    ensures forall i :: 0 <= i < |Small(segments, target)| ==>
              Small(segments, target)[i] in segments && Small(segments, target)[i].rowCount < target
  {
    if segments != [] { SmallMembers(segments[1..], target); }
  }

  lemma {:induction false} SmallIsSorted(segments: seq<Segment>, target: nat)
    requires Tiled(segments)
    ensures forall i, j :: 0 <= i < j < |Small(segments, target)| ==>
              Small(segments, target)[i].first < Small(segments, target)[j].first
  {
    hide Describes;
    if segments != [] {
      var rest := segments[1..];
      TiledSlice(segments, 1, |segments|);
      assert rest == segments[1..|segments|];
      SmallIsSorted(rest, target);
      SmallMembers(rest, target);
      forall s | s in rest
        ensures segments[0].first < s.first
      {
        var k :| 0 <= k < |rest| && rest[k] == s;
        FirstsIncrease(segments, 0, k + 1);
      }
    }
  }

  lemma TotalOfFour(s: seq<Segment>)
    requires |s| == 4
    ensures TotalRows(s) == s[0].rowCount + s[1].rowCount + s[2].rowCount + s[3].rowCount
  {
    assert s[..3][..2][..1] == [s[0]] && s[..3][..2] == [s[0], s[1]] && s[..3] == [s[0], s[1], s[2]];
    TotalRowsSnoc([], s[0]);
    assert [] + [s[0]] == [s[0]];
    TotalRowsSnoc([s[0]], s[1]);
    assert [s[0]] + [s[1]] == [s[0], s[1]];
    TotalRowsSnoc([s[0], s[1]], s[2]);
    assert [s[0], s[1]] + [s[2]] == [s[0], s[1], s[2]];
    TotalRowsSnoc([s[0], s[1], s[2]], s[3]);
    assert [s[0], s[1], s[2]] + [s[3]] == s;
  }

  /** The query's condition on a row says that the four rows from it on are compactable. */
  lemma SeedRowMeaning(small: seq<Segment>, i: nat, target: nat)
    requires i + 4 <= |small|
    requires forall k :: i <= k < i + 4 ==> small[k].rowCount < target
    ensures SeedRow(small, i, target) <==> Compactable(small[i..i + 4], target)
  {
    var w := small[i..i + 4];
    assert w[0] == small[i] && w[1] == small[i + 1] && w[2] == small[i + 2] && w[3] == small[i + 3];
    hide TotalRows;
    TotalOfFour(w);
    var a, b, c, d := w[0].rowCount, w[1].rowCount, w[2].rowCount, w[3].rowCount;
    assert {a, b, c, d} == {w[0].rowCount, w[1].rowCount, w[2].rowCount, w[3].rowCount};
    AdjacentFour(w);
    RatioOfFour(w);
  }

  lemma AdjacentFour(w: seq<Segment>)
    requires |w| == 4
    ensures Adjacent(w) <==>
              && w[0].signature == w[1].signature && w[0].signature == w[2].signature
                 && w[0].signature == w[3].signature
              && w[0].last + 1 == w[1].first && w[1].last + 1 == w[2].first && w[2].last + 1 == w[3].first
  {
    if Adjacent(w) {
      assert w[1].first == w[0].last + 1 && w[2].first == w[1].last + 1 && w[3].first == w[2].last + 1;
    }
  }

  lemma RatioOfFour(w: seq<Segment>)
    requires |w| == 4
    ensures Comparable(w)
            <==> Greatest(w[0].rowCount, w[1].rowCount, w[2].rowCount, w[3].rowCount)
                 <= Least(w[0].rowCount, w[1].rowCount, w[2].rowCount, w[3].rowCount) * MAX_COMPACTION_SIZE_RATIO
  {
    var g := Greatest(w[0].rowCount, w[1].rowCount, w[2].rowCount, w[3].rowCount);
    var l := Least(w[0].rowCount, w[1].rowCount, w[2].rowCount, w[3].rowCount);
    var i :| 0 <= i < 4 && w[i].rowCount == g;
    var j :| 0 <= j < 4 && w[j].rowCount == l;
    assert forall k :: 0 <= k < 4 ==> l <= w[k].rowCount <= g;
  }

  /** In a tiled catalog a seed row starts four rows that are also neighbours in the full listing. */
  lemma SeedIsWindow(segments: seq<Segment>, target: nat, i: nat) returns (k: nat)
    requires Tiled(segments) && SeedRow(Small(segments, target), i, target)
    ensures Qualifies(segments, k, target) && segments[k] == Small(segments, target)[i]
  {
    hide Tiled, Small, TotalRows, SeedRow;
    var small := Small(segments, target);
    SmallMembers(segments, target);
    SeedRowFits(small, target);
    SeedRowMeaning(small, i, target);
    var w := small[i..i + 4];
    assert forall n :: 0 <= n < 4 ==> w[n] == small[i + n];
    k := SourcesAreSlice(segments, w);
    assert w[0] == segments[k];
  }

  /** Every qualifying window of the full listing is seen by the seed query. */
  lemma WindowIsSeed(segments: seq<Segment>, target: nat, k: nat) returns (i: nat)
    requires Qualifies(segments, k, target)
    ensures SeedRow(Small(segments, target), i, target) && Small(segments, target)[i] == segments[k]
  {
    hide Small, SeedRow, TotalRows;
    var before, w, after := segments[..k], segments[k..k + 4], segments[k + 4..];
    assert segments == before + (w + after);
    SmallConcat(before, w + after, target);
    SmallConcat(w, after, target);
    SmallOfSmall(w, target);
    i := |Small(before, target)|;
    var small := Small(segments, target);
    assert small[i..i + 4] == w;
    assert forall n :: i <= n < i + 4 ==> small[n] == w[n - i];
    SeedRowMeaning(small, i, target);
  }

  /** The seed query finds the first qualifying window of the catalog, and only fails when there is none. */
  lemma SeedFindsFirstWindow(segments: seq<Segment>, target: nat) returns (k: nat)
    requires Tiled(segments)
    ensures Seed(Small(segments, target), target).None? <==> forall j: nat :: !Qualifies(segments, j, target)
    ensures Seed(Small(segments, target), target).Some? ==>
              && Qualifies(segments, k, target) && Seed(Small(segments, target), target).value == segments[k]
              && forall j: nat :: j < k ==> !Qualifies(segments, j, target)
  {
    hide Tiled, Small, SeedRow, Qualifies, SeedFrom;
    var small := Small(segments, target);
    SeedFromIsFirst(small, 0, target);
    k := 0;
    var seed := SeedFrom(small, 0, target);
    if seed.None? {
      forall j: nat
        ensures !Qualifies(segments, j, target)
      {
        if Qualifies(segments, j, target) { var i := WindowIsSeed(segments, target, j); }
      }
    } else {
      k := SeedIsWindow(segments, target, seed.value);
      forall j: nat | j < k
        ensures !Qualifies(segments, j, target)
      {
        if Qualifies(segments, j, target) { NoEarlierWindow(segments, target, seed.value, k, j); }
      }
    }
  }

  lemma NoEarlierWindow(segments: seq<Segment>, target: nat, i: nat, k: nat, j: nat)
    requires Tiled(segments) && Qualifies(segments, j, target) && Qualifies(segments, k, target)
    requires i + 4 <= |Small(segments, target)| && Small(segments, target)[i] == segments[k]
    requires forall m: nat :: m < i ==> !SeedRow(Small(segments, target), m, target)
    ensures k <= j
  {
    hide Tiled, Small, SeedRow, Compactable;
    var m := WindowIsSeed(segments, target, j);
    SeedRowFits(Small(segments, target), target);
    SmallIsSorted(segments, target);
    if j < k { FirstsIncrease(segments, j, k); }
  }
}

/** How often compaction rewrites a row: the size-ratio rule keeps the rewrite depth logarithmic. */
module WriteAmplification {
  import opened Wrappers
  import opened MetricLog
  import opened SegmentCatalog
  import opened CompactionCandidates

  const DEFAULT_TARGET_ROWS: nat := 16 * 1024
  const MAX_TARGET_ROWS: nat := 64 * 1024

  function Pow(base: nat, exponent: nat): nat {
    if exponent == 0 then 1 else base * Pow(base, exponent - 1)
  }

  /** How many times the most rewritten row of this file has been rewritten. */
  function Depth(p: Path): nat
    decreases p
  {
    match p
    case Raw(_, _) => 0
    case Merged(_, _, _, sources) => 1 + MaxDepth(sources)
  }

  function MaxDepth(paths: seq<Path>): nat
    decreases paths
  {
    if paths == [] then 0 else Max(Depth(paths[0]), MaxDepth(paths[1..]))
  }

  /** How many rows were written by the compactions that led to this file. */
  function Work(p: Path): nat
    decreases p
  {
    match p
    case Raw(_, _) => 0
    case Merged(_, _, _, sources) => |RowsOfAll(sources)| + WorkOfAll(sources)
  }

  function WorkOfAll(paths: seq<Path>): nat
    decreases paths
  {
    if paths == [] then 0 else Work(paths[0]) + WorkOfAll(paths[1..])
  }

  /** Each rewrite enlarged the file by at least five halves, and no rewrite exceeded the target. */
  ghost predicate Economical(p: Path, target: nat) {
    && Pow(5, Depth(p)) <= Pow(2, Depth(p)) * |RowsOf(p)|
    && (Depth(p) > 0 ==> |RowsOf(p)| <= target)
  }

  /** At least four inputs of similar size: twice their total is at least five times any one of them. */
  lemma TotalDominates(c: seq<Segment>, j: nat)
    requires MIN_COMPACTION_INPUT_SEGMENTS <= |c| && j < |c| && Comparable(c)
    ensures 5 * c[j].rowCount <= 2 * TotalRows(c)
  {
    hide Comparable, TotalRows;
    PrefixDominates(c, j, |c|);
    assert c[..|c|] == c;
    MulMonotone(c[j].rowCount, 4, |c|);
  }

  lemma {:induction false} PrefixDominates(c: seq<Segment>, j: nat, n: nat)
    requires j < |c| && n <= |c| && Comparable(c)
    ensures c[j].rowCount * n + (if j < n then c[j].rowCount else 0) <= 2 * TotalRows(c[..n])
  {
    if n > 0 {
      PrefixDominates(c, j, n - 1);
      hide TotalRows;
      assert c[..n] == c[..n - 1] + [c[n - 1]];
      TotalRowsSnoc(c[..n - 1], c[n - 1]);
      TimesNext(c[j].rowCount, n - 1);
    } else {
      assert c[..0] == [];
    }
  }

  lemma TimesNext(x: nat, n: nat)
    ensures x * (n + 1) == x * n + x
  {
  }

  lemma {:induction false} DeepestSource(paths: seq<Path>) returns (j: nat)
    requires paths != []
    ensures j < |paths| && Depth(paths[j]) == MaxDepth(paths)
    ensures forall i :: 0 <= i < |paths| ==> Depth(paths[i]) <= MaxDepth(paths)
  {
    if |paths| == 1 {
      j := 0;
    } else {
      var k := DeepestSource(paths[1..]);
      j := if Depth(paths[0]) >= Depth(paths[k + 1]) then 0 else k + 1;
      assert forall i :: 0 < i < |paths| ==> paths[i] == paths[1..][i - 1];
    }
  }

  /** Merging a candidate keeps every file economical. */
  lemma MergeIsEconomical(c: seq<Segment>, target: nat)
    requires Tiled(c) && MIN_COMPACTION_INPUT_SEGMENTS <= |c| && Compactable(c, target)
    requires forall i :: 0 <= i < |c| ==> Economical(c[i].path, target)
    ensures Economical(Compacted(c).path, target)
  {
    hide MaxDepth, TotalRows, LogOf, RowsOfAll, Pow, Adjacent;
    var p := Compacted(c).path;
    var j := DeepestSource(Paths(c));
    var d := Depth(c[j].path);
    assert Depth(p) == d + 1;
    CompactedDescribes(c);
    TotalDominates(c, j);
    assert Describes(c[j]);
    PowStep(d, c[j].rowCount, |RowsOf(p)|);
  }

  lemma PowStep(d: nat, rows: nat, total: nat)
    requires Pow(5, d) <= Pow(2, d) * rows && 5 * rows <= 2 * total
    ensures Pow(5, d + 1) <= Pow(2, d + 1) * total
  {
    var a, b := Pow(5, d), Pow(2, d);
    assert 5 * a <= b * (5 * rows) <= b * (2 * total) == (2 * b) * total;
  }

  lemma {:induction false} DepthIsLogarithmic(d: nat, base: nat, target: nat)
    requires Pow(5, base) > Pow(2, base) * target && d >= base
    ensures Pow(5, d) > Pow(2, d) * target
    decreases d
  {
    if d > base {
      DepthIsLogarithmic(d - 1, base, target);
      var a, b := Pow(5, d - 1), Pow(2, d - 1);
      assert 5 * a > 2 * a > 2 * (b * target) == (2 * b) * target;
    }
  }

  /** With the default target no row is rewritten more than ten times, with the largest one twelve. */
  lemma DepthBound(p: Path, target: nat)
    requires Economical(p, target)
    ensures target <= DEFAULT_TARGET_ROWS ==> Depth(p) <= 10
    ensures target <= MAX_TARGET_ROWS ==> Depth(p) <= 12
  {
    var rows := |RowsOf(p)|;
    hide RowsOf, Depth;
    if target <= DEFAULT_TARGET_ROWS && Depth(p) > 10 {
      PowElevenAndThirteen();
      DepthIsLogarithmic(Depth(p), 11, DEFAULT_TARGET_ROWS);
      MulMonotone(Pow(2, Depth(p)), rows, DEFAULT_TARGET_ROWS);
      assert false;
    }
    if target <= MAX_TARGET_ROWS && Depth(p) > 12 {
      PowElevenAndThirteen();
      DepthIsLogarithmic(Depth(p), 13, MAX_TARGET_ROWS);
      MulMonotone(Pow(2, Depth(p)), rows, MAX_TARGET_ROWS);
      assert false;
    }
  }

  lemma MulMonotone(a: nat, b: nat, c: nat)
    requires b <= c
    ensures a * b <= a * c
  {
  }

  lemma PowElevenAndThirteen()
    ensures Pow(5, 11) > Pow(2, 11) * DEFAULT_TARGET_ROWS
    ensures Pow(5, 13) > Pow(2, 13) * MAX_TARGET_ROWS
  {
    assert Pow(5, 4) == 625 && Pow(2, 4) == 16;
    assert Pow(5, 8) == 390625 && Pow(2, 8) == 256;
    assert Pow(5, 11) == 48828125 && Pow(2, 11) == 2048;
    assert Pow(5, 13) == 1220703125 && Pow(2, 13) == 8192;
  }

  /** The rows written for a file are at most its depth times its rows. */
  lemma {:induction false} WorkBound(p: Path)
    ensures Work(p) <= Depth(p) * |RowsOf(p)|
    decreases p
  {
    match p
    case Raw(_, _) =>
    case Merged(_, _, _, sources) =>
      WorkBoundAll(sources, MaxDepth(sources));
      assert (1 + MaxDepth(sources)) * |RowsOfAll(sources)|
          == |RowsOfAll(sources)| + MaxDepth(sources) * |RowsOfAll(sources)|;
  }

  lemma {:induction false} WorkBoundAll(paths: seq<Path>, depth: nat)
    requires MaxDepth(paths) <= depth
    ensures WorkOfAll(paths) <= depth * |RowsOfAll(paths)|
    decreases paths
  {
    if paths != [] {
      WorkBound(paths[0]);
      WorkBoundAll(paths[1..], depth);
      SplitWork(Depth(paths[0]), depth, |RowsOf(paths[0])|, |RowsOfAll(paths[1..])|);
    }
  }

  lemma SplitWork(shallow: nat, depth: nat, rows: nat, rest: nat)
    requires shallow <= depth
    ensures shallow * rows + depth * rest <= depth * (rows + rest)
  {
    assert (depth - shallow) * rows >= 0;
  }

  lemma {:induction false} WorkOfAllConcat(a: seq<Path>, b: seq<Path>)
    ensures WorkOfAll(a + b) == WorkOfAll(a) + WorkOfAll(b)
    decreases |a|
  {
    if a == [] {
      assert a + b == b;
    } else {
      assert (a + b)[1..] == a[1..] + b;
      WorkOfAllConcat(a[1..], b);
    }
  }

  lemma {:induction false} MaxDepthBound(paths: seq<Path>, bound: nat)
    requires forall i :: 0 <= i < |paths| ==> Depth(paths[i]) <= bound
    ensures MaxDepth(paths) <= bound
  {
    if paths != [] { MaxDepthBound(paths[1..], bound); }
  }

  /** All the rewriting that led to a catalog of economical files is at most ten (twelve) times its rows. */
  lemma TotalWorkBound(segments: seq<Segment>, target: nat)
    requires Tiled(segments) && forall i :: 0 <= i < |segments| ==> Economical(segments[i].path, target)
    ensures target <= DEFAULT_TARGET_ROWS ==> WorkOfAll(Paths(segments)) <= 10 * |LogOf(segments)|
    ensures target <= MAX_TARGET_ROWS ==> WorkOfAll(Paths(segments)) <= 12 * |LogOf(segments)|
  {
    hide Tiled, Economical, WorkOfAll, RowsOfAll, MaxDepth, Depth;
    forall i | 0 <= i < |segments|
      ensures target <= DEFAULT_TARGET_ROWS ==> Depth(segments[i].path) <= 10
      ensures target <= MAX_TARGET_ROWS ==> Depth(segments[i].path) <= 12
    {
      DepthBound(segments[i].path, target);
    }
    var paths := Paths(segments);
    if target <= DEFAULT_TARGET_ROWS {
      MaxDepthBound(paths, 10);
      WorkBoundAll(paths, 10);
    }
    if target <= MAX_TARGET_ROWS {
      MaxDepthBound(paths, 12);
      WorkBoundAll(paths, 12);
    }
  }

  /** Replacing a slice by its merged file adds exactly the rows of the slice to the work. */
  lemma WorkOfSplice(segments: seq<Segment>, i: nat, k: nat)
    requires i < k <= |segments|
    ensures WorkOfAll(Paths(segments[..i] + [Compacted(segments[i..k])] + segments[k..]))
            == WorkOfAll(Paths(segments)) + |LogOf(segments[i..k])|
  {
    hide RowsOfAll, WorkOfAll;
    var a, b, c := Paths(segments[..i]), Paths(segments[i..k]), Paths(segments[k..]);
    var merged := Compacted(segments[i..k]).path;
    assert Paths(segments) == a + (b + c);
    assert Paths(segments[..i] + [Compacted(segments[i..k])] + segments[k..]) == a + ([merged] + c);
    WorkOfAllConcat(a, b + c);
    WorkOfAllConcat(b, c);
    WorkOfAllConcat(a, [merged] + c);
    WorkOfAllConcat([merged], c);
    WorkOfOne(merged);
  }

  lemma WorkOfOne(p: Path)
    ensures WorkOfAll([p]) == Work(p)
  {
    assert [p][1..] == [];
  }
}

/**
  The append-only, sequence-numbered log of one run and the segment files it is
  stored in.  A file name carries a digest of what the file was made from; digests
  are injective, so a name is represented by that content itself.
 */
module MetricLog {

  import opened Wrappers

  datatype Row = Row(sequence: nat, step: U64, timestamp: I64, values: map<string, real>)

  /** The hash of a batch's metric keys, represented by the keys. */
  type Signature = set<string>

  datatype Path =
    | Raw(batch: nat, rows: seq<Row>)
    | Merged(first: nat, last: nat, signature: Signature, sources: seq<Path>)

  /** A row of the `metric_segments` table; its id is as unique as its path. */
  datatype Segment = Segment(path: Path, signature: Signature, first: nat, last: nat, rowCount: nat)

  /** The rows of the file with this name. */
  function RowsOf(p: Path): seq<Row>
    decreases p
  {
    match p
    case Raw(_, rows) => rows
    case Merged(_, _, _, sources) => RowsOfAll(sources)
  }

  function RowsOfAll(paths: seq<Path>): seq<Row>
    decreases paths
  {
    if paths == [] then [] else RowsOf(paths[0]) + RowsOfAll(paths[1..])
  }

  function KeysOf(rows: seq<Row>): Signature {
    if rows == [] then {} else KeysOf(rows[..|rows| - 1]) + rows[|rows| - 1].values.Keys
  }

  /** The columns are exactly the keys that some row has. */
  lemma {:induction false} KeysAreColumns(rows: seq<Row>)
    ensures forall k :: k in KeysOf(rows) <==> exists r :: r in rows && k in r.values
    decreases |rows|
  {
    if rows != [] {
      var n := |rows| - 1;
      KeysAreColumns(rows[..n]);
      assert forall r :: r in rows <==> r in rows[..n] || r == rows[n];
    }
  }

  /** The metric columns of the file: those of its batch, or those its first source had. */
  function SchemaOf(p: Path): Signature
    decreases p
  {
    match p
    case Raw(_, rows) => KeysOf(rows)
    case Merged(_, _, _, sources) => if sources == [] then {} else SchemaOf(sources[0])
  }

  function Paths(segments: seq<Segment>): seq<Path> {
    seq(|segments|, i requires 0 <= i < |segments| => segments[i].path)
  }

  /** The rows a list of segments stores, in order. */
  function LogOf(segments: seq<Segment>): seq<Row> {
    RowsOfAll(Paths(segments))
  }

  ghost predicate Consecutive(rows: seq<Row>, first: nat) {
    forall i :: 0 <= i < |rows| ==> rows[i].sequence == first + i
  }

  /** The catalog entry describes its file truthfully. */
  ghost predicate Describes(s: Segment) {
    && 0 < s.rowCount == |RowsOf(s.path)| && s.last == s.first + s.rowCount - 1
    && Consecutive(RowsOf(s.path), s.first)
    && s.signature == SchemaOf(s.path)
  }

  /** Consecutive segments cover one contiguous range without gap or overlap. */
  ghost predicate Tiled(segments: seq<Segment>) {
    && (forall i :: 0 <= i < |segments| ==> Describes(segments[i]))
    && (forall i :: 0 < i < |segments| ==> segments[i].first == segments[i - 1].last + 1)
  }

  // ------------------------------------------------------------------ laws

  lemma {:induction false} RowsOfAllConcat(a: seq<Path>, b: seq<Path>)
    ensures RowsOfAll(a + b) == RowsOfAll(a) + RowsOfAll(b)
    decreases |a|
  {
    if a == [] {
      assert a + b == b;
    } else {
      assert (a + b)[1..] == a[1..] + b;
      RowsOfAllConcat(a[1..], b);
      assert RowsOf(a[0]) + (RowsOfAll(a[1..]) + RowsOfAll(b)) == RowsOf(a[0]) + RowsOfAll(a[1..]) + RowsOfAll(b);
    }
  }

  lemma LogConcat(a: seq<Segment>, b: seq<Segment>)
    ensures LogOf(a + b) == LogOf(a) + LogOf(b)
  {
    assert Paths(a + b) == Paths(a) + Paths(b);
    RowsOfAllConcat(Paths(a), Paths(b));
  }

  lemma LogOfOne(s: Segment)
    ensures LogOf([s]) == RowsOf(s.path)
  {
    assert Paths([s]) == [s.path] && [s.path][1..] == [];
    assert RowsOfAll([s.path]) == RowsOf(s.path) + [];
  }

  lemma TiledDescribes(segments: seq<Segment>, i: nat)
    requires Tiled(segments) && i < |segments|
    ensures Describes(segments[i])
  {
  }

  lemma LogOfNothing()
    ensures LogOf([]) == []
  {
  }

  lemma TiledSlice(segments: seq<Segment>, i: nat, j: nat)
    requires Tiled(segments) && i <= j <= |segments|
    ensures Tiled(segments[i..j])
  {
    hide Describes;
    forall k | 0 <= k < j - i
      ensures Describes(segments[i..j][k])
    {
      assert segments[i..j][k] == segments[i + k];
    }
  }

  lemma TiledPrefix(a: seq<Segment>, b: seq<Segment>)
    requires Tiled(b) && a <= b
    ensures Tiled(a)
  {
    TiledSlice(b, 0, |a|);
    assert b[0..|a|] == a;
  }

  lemma TiledConcat(a: seq<Segment>, b: seq<Segment>)
    requires Tiled(a) && Tiled(b)
    requires a != [] && b != [] ==> b[0].first == a[|a| - 1].last + 1
    ensures Tiled(a + b)
  {
    hide Describes;
    forall i | 0 < i < |a + b|
      ensures (a + b)[i].first == (a + b)[i - 1].last + 1
    {
      if i > |a| { assert (a + b)[i] == b[i - |a|] && (a + b)[i - 1] == b[i - |a| - 1]; }
    }
  }

  /** The rows of a tiled list are numbered without gap from its first sequence to its last. */
  lemma {:induction false} TiledLogIsConsecutive(segments: seq<Segment>)
    requires Tiled(segments) && segments != []
    ensures Consecutive(LogOf(segments), segments[0].first)
    ensures segments[0].first + |LogOf(segments)| - 1 == segments[|segments| - 1].last
    ensures |LogOf(segments)| == TotalRows(segments) > 0
    decreases |segments|
  {
    var n := |segments| - 1;
    var init, last := segments[..n], segments[n];
    assert segments == init + [last];
    LogConcat(init, [last]);
    LogOfOne(last);
    TotalRowsSnoc(init, last);
    if n == 0 {
      assert init == [] && LogOf(init) == [];
    } else {
      TiledSlice(segments, 0, n);
      TiledLogIsConsecutive(init);
    }
  }

  function TotalRows(segments: seq<Segment>): nat {
    if segments == [] then 0 else TotalRows(segments[..|segments| - 1]) + segments[|segments| - 1].rowCount
  }

  lemma TotalRowsSnoc(segments: seq<Segment>, s: Segment)
    ensures TotalRows(segments + [s]) == TotalRows(segments) + s.rowCount
  {
    assert (segments + [s])[..|segments|] == segments;
  }

  lemma {:induction false} FirstsIncrease(segments: seq<Segment>, i: nat, j: nat)
    requires Tiled(segments) && i < j < |segments|
    ensures segments[i].last < segments[j].first && segments[i].first < segments[j].first
    ensures segments[i].first <= segments[i].last && segments[i].last < segments[j].last
    decreases j
  {
    if i < j - 1 { FirstsIncrease(segments, i, j - 1); }
    assert Describes(segments[j - 1]) && Describes(segments[i]) && Describes(segments[j]);
  }
}

/** The canonical JSON body of a metric delivery, and the prediction of its length. */
module Requests {
  import opened Framing

  function Ascii(s: string): (bytes: seq<Byte>)
    requires forall i :: 0 <= i < |s| ==> s[i] as int < 128
    ensures |bytes| == |s| && forall i :: 0 <= i < |s| ==> bytes[i] as int == s[i] as int
  {
    seq(|s|, i requires 0 <= i < |s| => s[i] as int as Byte)
  }

  function Decimal(n: nat): seq<Byte> {
    if n < 10 then [(48 + n) as Byte] else Decimal(n / 10) + [(48 + n % 10) as Byte]
  }

  function Join(points: seq<Line>): seq<Byte> {
    if points == [] then []
    else if |points| == 1 then points[0]
    else Join(points[..|points| - 1]) + [44] + points[|points| - 1]
  }

  /** The body {"batch_sequence":n,"points":[...]} with sorted keys and no spaces. */
  function EncodeRequest(batchSequence: nat, points: seq<Line>): seq<Byte> {
    Ascii("{\"batch_sequence\":") + Decimal(batchSequence) + Ascii(",\"points\":[") + Join(points) + Ascii("]}")
  }

  function TotalBytes(points: seq<Line>): nat {
    if points == [] then 0 else TotalBytes(points[..|points| - 1]) + |points[|points| - 1]|
  }

  /** The length predicted from running totals, without encoding the batch. */
  function IncrementalSize(batchSequence: nat, pointBytes: nat, count: nat): nat {
    |EncodeRequest(batchSequence, [])| + pointBytes + if count == 0 then 0 else count - 1
  }

  /** The length of the request that will be sent. */
  function RequestSize(batchSequence: nat, points: seq<Line>): nat {
    |EncodeRequest(batchSequence, points)|
  }

  lemma {:induction false} JoinLength(points: seq<Line>)
    ensures |Join(points)| == TotalBytes(points) + if points == [] then 0 else |points| - 1
  {
    if |points| > 1 {
      JoinLength(points[..|points| - 1]);
    } else if |points| == 1 {
      assert points[..0] == [];
    }
  }

  /** The incremental prediction is the exact length of the encoded request. */
  lemma PredictionIsExact(batchSequence: nat, points: seq<Line>)
    ensures IncrementalSize(batchSequence, TotalBytes(points), |points|) == RequestSize(batchSequence, points)
  {
    JoinLength(points);
    JoinLength([]);
  }

  lemma TotalBytesSnoc(points: seq<Line>, point: Line)
    ensures TotalBytes(points + [point]) == TotalBytes(points) + |point|
  {
    var longer := points + [point];
    assert longer[..|longer| - 1] == points && longer[|longer| - 1] == point;
  }

  lemma RequestSizeIncremental(n: nat, points: seq<Line>, point: Line)
    ensures IncrementalSize(n, TotalBytes(points) + |point|, |points| + 1) == RequestSize(n, points + [point])
  {
    hide *;
    TotalBytesSnoc(points, point);
    PredictionIsExact(n, points + [point]);
  }

  lemma {:induction false} TotalBytesConcat(a: seq<Line>, b: seq<Line>)
    ensures TotalBytes(a + b) == TotalBytes(a) + TotalBytes(b)
  {
    if b == [] {
      assert a + b == a;
    } else {
      var c := b[..|b| - 1];
      TotalBytesConcat(a, c);
      assert (a + b)[..|a + b| - 1] == a + c;
    }
  }

  /** Longer batches have longer requests. */
  lemma RequestSizeMonotone(n: nat, points: seq<Line>, j: nat, k: nat)
    requires j <= k <= |points|
    ensures RequestSize(n, points[..j]) <= RequestSize(n, points[..k])
  {
    PredictionIsExact(n, points[..j]);
    PredictionIsExact(n, points[..k]);
    assert points[..k] == points[..j] + points[j..k];
    TotalBytesConcat(points[..j], points[j..k]);
  }

  lemma {:induction false} DecimalStep(n: nat)
    ensures |Decimal(n)| <= |Decimal(n + 1)| <= |Decimal(n)| + 1
  {
    if n >= 9 {
      if n % 10 == 9 {
        assert (n + 1) / 10 == n / 10 + 1;
        if n >= 10 { DecimalStep(n / 10); }
      } else {
        assert (n + 1) / 10 == n / 10;
      }
    }
  }

  lemma {:induction false} DecimalGrowth(n: nat, k: nat)
    ensures |Decimal(n)| <= |Decimal(n + k)| <= |Decimal(n)| + k
    decreases k
  {
    hide Decimal;
    if k > 0 {
      DecimalGrowth(n, k - 1);
      DecimalStep(n + k - 1);
    }
  }

  lemma RequestLength(n: nat, points: seq<Line>)
    ensures RequestSize(n, points)
            == RequestSize(0, []) - |Decimal(0)| + |Decimal(n)| + TotalBytes(points)
               + if points == [] then 0 else |points| - 1
  {
    JoinLength(points);
    JoinLength([]);
    hide Decimal, Ascii;
  }

  /** Every record of a request fits a request of its own, although its number may have more digits. */
  lemma EachFits(n: nat, points: seq<Line>, k: nat)
    requires k < |points|
    ensures RequestSize(n + k, [points[k]]) <= RequestSize(n, points)
  {
    hide *;
    RequestLength(n, points);
    RequestLength(n + k, [points[k]]);
    DecimalGrowth(n, k);
    assert points == points[..k] + ([points[k]] + points[k + 1..]);
    TotalBytesConcat(points[..k], [points[k]] + points[k + 1..]);
    TotalBytesConcat([points[k]], points[k + 1..]);
  }

  // ------------------------------------------------------- the body, declared

  predicate IsDigit(b: Byte) {
    48 <= b <= 57
  }

  function DigitValue(b: Byte): nat
    requires IsDigit(b)
  {
    b as int - 48
  }

  /** The number that digits stand for, by place value. */
  function Value(digits: seq<Byte>): nat
    requires forall i :: 0 <= i < |digits| ==> IsDigit(digits[i])
  {
    if digits == [] then 0 else 10 * Value(digits[..|digits| - 1]) + DigitValue(digits[|digits| - 1])
  }

  /** Digits without leading zeros that stand for `n`. */
  predicate IsNumeral(digits: seq<Byte>, n: nat) {
    && digits != [] && (forall i :: 0 <= i < |digits| ==> IsDigit(digits[i]))
    && (|digits| > 1 ==> digits[0] != 48) && Value(digits) == n
  }

  predicate StandsAt(part: seq<Byte>, bytes: seq<Byte>, at: nat) {
    at + |part| <= |bytes| && bytes[at..at + |part|] == part
  }

  predicate ReadsAt(text: string, bytes: seq<Byte>, at: nat) {
    at + |text| <= |bytes| && forall i :: 0 <= i < |text| ==> bytes[at + i] as int == text[i] as int
  }

  /** Where point `k` begins when the first one begins at `start` and commas separate them. */
  function PointAt(start: nat, points: seq<Line>, k: nat): nat
    requires k <= |points|
  {
    start + TotalBytes(points[..k]) + k
  }

  /** Point `k` stands in its place, with a comma before it unless it is the first. */
  predicate ListsPoint(bytes: seq<Byte>, start: nat, points: seq<Line>, k: nat)
    requires k < |points|
  {
    && StandsAt(points[k], bytes, PointAt(start, points, k))
    && (k > 0 ==> ReadsAt(",", bytes, PointAt(start, points, k) - 1))
  }

  ghost predicate ListsPoints(bytes: seq<Byte>, start: nat, points: seq<Line>) {
    forall k :: 0 <= k < |points| ==> ListsPoint(bytes, start, points, k)
  }

  /** Text, digits, text, the points and text, one after the other and nothing else. */
  ghost predicate IsBody(bytes: seq<Byte>, opening: string, digits: seq<Byte>, middle: string, points: seq<Line>,
                         closing: string)
  {
    var start := |opening| + |digits| + |middle|;
    && |bytes| == start + TotalBytes(points) + (if points == [] then 0 else |points| - 1) + |closing|
    && ReadsAt(opening, bytes, 0) && StandsAt(digits, bytes, |opening|)
    && ReadsAt(middle, bytes, |opening| + |digits|) && ListsPoints(bytes, start, points)
    && ReadsAt(closing, bytes, |bytes| - |closing|)
  }

  /** The body of a request with its number in decimal. */
  ghost predicate IsRequest(bytes: seq<Byte>, n: nat, points: seq<Line>) {
    exists digits :: IsNumeral(digits, n)
                     && IsBody(bytes, "{\"batch_sequence\":", digits, ",\"points\":[", points, "]}")
  }

  lemma {:induction false} DecimalIsNumeral(n: nat)
    ensures IsNumeral(Decimal(n), n) && (n > 0 ==> Decimal(n)[0] != 48)
  {
    if n >= 10 {
      DecimalIsNumeral(n / 10);
      assert Decimal(n)[..|Decimal(n)| - 1] == Decimal(n / 10);
    } else {
      assert Decimal(n)[..0] == [];
    }
  }

  /** What stands in the first of two pieces stands in both together. */
  lemma StandsBefore(part: seq<Byte>, a: seq<Byte>, b: seq<Byte>, at: nat)
    requires StandsAt(part, a, at)
    ensures StandsAt(part, a + b, at)
  {
    assert (a + b)[at..at + |part|] == a[at..at + |part|];
  }

  lemma StandsShifted(part: seq<Byte>, a: seq<Byte>, b: seq<Byte>, at: nat)
    requires StandsAt(part, b, at)
    ensures StandsAt(part, a + b, |a| + at)
  {
    assert (a + b)[|a| + at..|a| + at + |part|] == b[at..at + |part|];
  }

  lemma AsciiReads(text: string, bytes: seq<Byte>, at: nat)
    requires (forall i :: 0 <= i < |text| ==> text[i] as int < 128) && StandsAt(Ascii(text), bytes, at)
    ensures ReadsAt(text, bytes, at)
  {
    forall i | 0 <= i < |text|
      ensures bytes[at + i] as int == text[i] as int
    {
      assert bytes[at..at + |text|][i] == bytes[at + i];
    }
  }

  /** One more point goes behind a comma at the end. */
  lemma ListsOneMore(bytes: seq<Byte>, points: seq<Line>, point: Line)
    requires points != [] && ListsPoints(bytes, 0, points) && |bytes| == TotalBytes(points) + |points| - 1
    ensures ListsPoints(bytes + [44] + point, 0, points + [point])
  {
    hide ListsPoint, TotalBytes;
    forall k | 0 <= k < |points + [point]|
      ensures ListsPoint(bytes + [44] + point, 0, points + [point], k)
    {
      if k < |points| {
        StillListed(bytes, points, point, k);
      } else {
        LastListed(bytes, points, point);
      }
    }
  }

  lemma StillListed(bytes: seq<Byte>, points: seq<Line>, point: Line, k: nat)
    requires k < |points| && ListsPoint(bytes, 0, points, k)
    ensures ListsPoint(bytes + [44] + point, 0, points + [point], k)
  {
    hide TotalBytes, StandsAt, ReadsAt;
    assert (points + [point])[..k] == points[..k];
    StillStands(bytes, [44] + point, points[k], PointAt(0, points, k), k > 0);
    assert bytes + ([44] + point) == bytes + [44] + point;
  }

  lemma LastListed(bytes: seq<Byte>, points: seq<Line>, point: Line)
    requires points != [] && |bytes| == TotalBytes(points) + |points| - 1
    ensures ListsPoint(bytes + [44] + point, 0, points + [point], |points|)
  {
    hide TotalBytes, StandsAt, ReadsAt;
    assert (points + [point])[..|points|] == points;
    StandsLast(bytes, point);
  }

  lemma StillStands(bytes: seq<Byte>, more: seq<Byte>, part: seq<Byte>, at: nat, comma: bool)
    requires StandsAt(part, bytes, at) && (comma ==> at > 0 && ReadsAt(",", bytes, at - 1))
    ensures StandsAt(part, bytes + more, at) && (comma ==> ReadsAt(",", bytes + more, at - 1))
  {
    StandsBefore(part, bytes, more, at);
  }

  lemma StandsLast(bytes: seq<Byte>, part: seq<Byte>)
    ensures StandsAt(part, bytes + [44] + part, |bytes| + 1) && ReadsAt(",", bytes + [44] + part, |bytes|)
  {
    assert (bytes + [44] + part)[|bytes| + 1..|bytes| + 1 + |part|] == part;
  }

  lemma {:induction false} JoinListsPoints(points: seq<Line>)
    ensures ListsPoints(Join(points), 0, points)
  {
    if |points| <= 1 {
      if points != [] { assert points[..0] == []; }
    } else {
      hide ListsPoints;
      var n := |points| - 1;
      JoinListsPoints(points[..n]);
      JoinLength(points[..n]);
      ListsOneMore(Join(points[..n]), points[..n], points[n]);
      assert points == points[..n] + [points[n]];
    }
  }

  lemma ListsShifted(bytes: seq<Byte>, a: seq<Byte>, b: seq<Byte>, points: seq<Line>)
    requires ListsPoints(bytes, 0, points)
    ensures ListsPoints(a + bytes + b, |a|, points)
  {
    hide TotalBytes;
    forall k | 0 <= k < |points|
      ensures ListsPoint(a + bytes + b, |a|, points, k)
    {
      assert ListsPoint(bytes, 0, points, k);
      StandsShifted(points[k], a, bytes, PointAt(0, points, k));
      StandsBefore(points[k], a + bytes, b, PointAt(|a|, points, k));
    }
  }

  /** Five pieces put together stand one after the other. */
  lemma PiecesStand(a: seq<Byte>, b: seq<Byte>, c: seq<Byte>, d: seq<Byte>, e: seq<Byte>)
    ensures var bytes := a + b + c + d + e;
            && StandsAt(a, bytes, 0) && StandsAt(b, bytes, |a|) && StandsAt(c, bytes, |a| + |b|)
            && StandsAt(e, bytes, |bytes| - |e|) && bytes == (a + b + c) + d + e
  {
    var bytes := a + b + c + d + e;
    assert bytes[0..|a|] == a && bytes[|a|..|a| + |b|] == b;
    assert bytes[|a| + |b|..|a| + |b| + |c|] == c && bytes[|bytes| - |e|..|bytes| - |e| + |e|] == e;
  }

  lemma PiecesAreBody(opening: string, digits: seq<Byte>, middle: string, points: seq<Line>, closing: string)
    requires forall i :: 0 <= i < |opening| ==> opening[i] as int < 128
    requires forall i :: 0 <= i < |middle| ==> middle[i] as int < 128
    requires forall i :: 0 <= i < |closing| ==> closing[i] as int < 128
    ensures IsBody(Ascii(opening) + digits + Ascii(middle) + Join(points)
                   + Ascii(closing), opening, digits, middle, points,
                   closing)
  {
    JoinListsPoints(points);
    JoinLength(points);
    hide Join, ListsPoints, TotalBytes, ReadsAt, StandsAt;
    var bytes := Ascii(opening) + digits + Ascii(middle) + Join(points) + Ascii(closing);
    PiecesStand(Ascii(opening), digits, Ascii(middle), Join(points), Ascii(closing));
    AsciiReads(opening, bytes, 0);
    AsciiReads(middle, bytes, |opening| + |digits|);
    AsciiReads(closing, bytes, |bytes| - |closing|);
    ListsShifted(Join(points), Ascii(opening) + digits + Ascii(middle), Ascii(closing), points);
  }

  /** The encoded body says what it must: its number by place value, and every point in its place. */
  lemma RequestIsDeclared(n: nat, points: seq<Line>)
    ensures IsRequest(EncodeRequest(n, points), n, points)
  {
    DecimalIsNumeral(n);
    hide Decimal, Join, IsBody, IsNumeral, Ascii;
    PiecesAreBody("{\"batch_sequence\":", Decimal(n), ",\"points\":[", points, "]}");
  }
}

/** A reader for canonical metric points and requests: it gets back exactly what was encoded. */
module PointReader {
  import opened Wrappers
  import opened Framing
  import opened Requests
  import opened Spool
  import opened SpoolLaws
  import opened ExactlyOnce
  import opened Points

  // ----------------------------------------------------------------- reading

  /** What is left after `text`, if the bytes begin with it. */
  function Expect(bytes: seq<Byte>, text: string): (r: Option<seq<Byte>>)
    ensures r.Some? ==> |r.value| == |bytes| - |text|
  {
    if ReadsAt(text, bytes, 0) then Some(bytes[|text|..]) else None
  }

  /** The digits from here on, after those that stand for `n`. */
  function ReadNat(bytes: seq<Byte>, n: nat): (r: (nat, seq<Byte>))
    ensures |r.1| <= |bytes|
    decreases |bytes|
  {
    if bytes == [] || !IsDigit(bytes[0]) then (n, bytes) else ReadNat(bytes[1..], 10 * n + DigitValue(bytes[0]))
  }

  function HexValue(b: Byte): Option<nat> {
    if 48 <= b <= 57 then Some(b as nat - 48) else if 97 <= b <= 102 then Some(b as nat - 87) else None
  }

  /** One code unit behind a backslash and a u. */
  function ReadUnit(bytes: seq<Byte>): Option<nat> {
    if |bytes| < 6 || bytes[0] != 92 || bytes[1] != 117 then None
    else
      var a, b, c, d := HexValue(bytes[2]), HexValue(bytes[3]), HexValue(bytes[4]), HexValue(bytes[5]);
      if a.None? || b.None? || c.None? || d.None? then None
      else Some(0x1000 * a.value + 0x100 * b.value + 16 * c.value + d.value)
  }

  /** The next character of a string and how many bytes it takes; a high surrogate needs a low one. */
  function ReadChar(bytes: seq<Byte>): (r: Option<(nat, nat)>)
    ensures r.Some? ==> 0 < r.value.1 <= |bytes|
  {
    if bytes == [] || bytes[0] == 34 then None
    else if bytes[0] != 92 then Some((bytes[0] as nat, 1))
    else if |bytes| >= 2 && (bytes[1] == 34 || bytes[1] == 92) then Some((bytes[1] as nat, 2))
    else
      var unit := ReadUnit(bytes);
      if unit.None? then None
      else if !(0xD800 <= unit.value < 0xDC00) then Some((unit.value, 6))
      else
        var low := ReadUnit(bytes[6..]);
        if low.None? || !(0xDC00 <= low.value < 0xE000) then None
        else Some((0x1_0000 + 0x400 * (unit.value - 0xD800) + (low.value - 0xDC00), 12))
  }

  /** The characters up to the closing quote, after those already read. */
  function ReadText(bytes: seq<Byte>, read: Text): (r: (Text, seq<Byte>))
    ensures |r.1| <= |bytes|
    decreases |bytes|
  {
    var c := ReadChar(bytes);
    if c.None? then (read, bytes) else ReadText(bytes[c.value.1..], read + [c.value.0])
  }

  function ReadNumber(bytes: seq<Byte>, read: seq<Byte>): (r: (seq<Byte>, seq<Byte>))
    ensures |r.1| <= |bytes|
    decreases |bytes|
  {
    if bytes == [] || !IsNumberByte(bytes[0]) then (read, bytes) else ReadNumber(bytes[1..], read + [bytes[0]])
  }

  function ReadMetric(bytes: seq<Byte>): (r: Option<(Metric, seq<Byte>)>)
    ensures r.Some? ==> |r.value.1| < |bytes|
  {
    var inside := Expect(bytes, "\"");
    if inside.None? then None
    else
      var (key, rest) := ReadText(inside.value, []);
      var closed := Expect(rest, "\":");
      if closed.None? then None
      else
        var (number, left) := ReadNumber(closed.value, []);
        Some((Metric(key, number), left))
  }

  /** The metrics from here on, separated by commas. */
  function ReadMetrics(bytes: seq<Byte>, read: seq<Metric>): (r: Option<(seq<Metric>, seq<Byte>)>)
    ensures r.Some? ==> |r.value.1| < |bytes|
    decreases |bytes|
  {
    var m := ReadMetric(bytes);
    if m.None? then None
    else
      var (metric, rest) := m.value;
      if rest != [] && rest[0] == 44 then ReadMetrics(rest[1..], read + [metric]) else Some((read + [metric], rest))
  }

  /** A labelled number. */
  function ReadField(bytes: seq<Byte>, name: string): (r: Option<(nat, seq<Byte>)>)
    ensures r.Some? ==> |r.value.1| <= |bytes|
  {
    var rest := Expect(bytes, name);
    if rest.None? then None else Some(ReadNat(rest.value, 0))
  }

  function ReadPoint(bytes: seq<Byte>): (r: Option<(Point, seq<Byte>)>)
    ensures r.Some? ==> |r.value.1| < |bytes|
  {
    var inside := Expect(bytes, "{\"metrics\":{");
    if inside.None? then None else
    var metrics := ReadMetrics(inside.value, []);
    if metrics.None? then None else
    var sequence := ReadField(metrics.value.1, "},\"sequence\":");
    if sequence.None? then None else
    var step := ReadField(sequence.value.1, ",\"step\":");
    if step.None? then None else
    var timestamp := ReadField(step.value.1, ",\"timestamp_ms\":");
    if timestamp.None? then None else
    var closed := Expect(timestamp.value.1, "}");
    if closed.None? then None
    else Some((Point(sequence.value.0, step.value.0, timestamp.value.0, metrics.value.0), closed.value))
  }

  /** The sequence number of a line that is one point and nothing else. */
  function Decode(line: Line): Option<nat> {
    var p := ReadPoint(line);
    if p.Some? && p.value.1 == [] then Some(p.value.0.sequence) else None
  }

  /** The points from here on, separated by commas. */
  function ReadPoints(bytes: seq<Byte>, read: seq<Point>): Option<(seq<Point>, seq<Byte>)>
    decreases |bytes|
  {
    var p := ReadPoint(bytes);
    if p.None? then None
    else
      var (point, rest) := p.value;
      if rest != [] && rest[0] == 44 then ReadPoints(rest[1..], read + [point]) else Some((read + [point], rest))
  }

  /** The number and the points of a request body, which must have some. */
  function ReadRequest(bytes: seq<Byte>): Option<(nat, seq<Point>)> {
    var n := ReadField(bytes, "{\"batch_sequence\":");
    if n.None? then None else
    var inside := Expect(n.value.1, ",\"points\":[");
    if inside.None? then None else
    var points := ReadPoints(inside.value, []);
    if points.None? then None else
    var closed := Expect(points.value.1, "]}");
    if closed == Some([]) then Some((n.value.0, points.value.0)) else None
  }

  // ----------------------------------------------------------- what it gives

  lemma ExpectFinds(text: string, rest: seq<Byte>)
    requires forall i :: 0 <= i < |text| ==> text[i] as int < 128
    ensures Expect(Ascii(text) + rest, text) == Some(rest)
  {
    assert (Ascii(text) + rest)[|text|..] == rest;
  }

  predicate NoDigitFirst(rest: seq<Byte>) {
    rest == [] || !IsDigit(rest[0])
  }

  lemma {:induction false} DigitsAreRead(n: nat, rest: seq<Byte>)
    ensures ReadNat(Decimal(n) + rest, 0) == ReadNat(rest, n)
    decreases n
  {
    var digit: Byte := (48 + n % 10) as Byte;
    assert ([digit] + rest)[1..] == rest;
    if n >= 10 {
      DigitsAreRead(n / 10, [digit] + rest);
      assert Decimal(n) + rest == Decimal(n / 10) + ([digit] + rest);
    }
  }

  lemma FieldIsRead(name: string, n: nat, rest: seq<Byte>)
    requires NoDigitFirst(rest) && forall i :: 0 <= i < |name| ==> name[i] as int < 128
    ensures ReadField(Ascii(name) + (Decimal(n) + rest), name) == Some((n, rest))
  {
    ExpectFinds(name, Decimal(n) + rest);
    DigitsAreRead(n, rest);
  }

  lemma HexIsRead(d: nat)
    requires d < 16
    ensures HexValue(HexDigit(d)) == Some(d)
  {
  }

  lemma UnitIsRead(unit: nat, rest: seq<Byte>)
    requires unit < 0x1_0000
    ensures ReadUnit(Escape(unit) + rest) == Some(unit)
  {
    HexIsRead(unit / 0x1000);
    HexIsRead(unit / 0x100 % 16);
    HexIsRead(unit / 16 % 16);
    HexIsRead(unit % 16);
    hide HexValue, HexDigit;
    assert forall i :: 0 <= i < 6 ==> (Escape(unit) + rest)[i] == Escape(unit)[i];
    HexParts(unit);
  }

  lemma HexParts(unit: nat)
    requires unit < 0x1_0000
    ensures 0x1000 * (unit / 0x1000) + 0x100 * (unit / 0x100 % 16) + 16 * (unit / 16 % 16) + unit % 16 == unit
  {
    var a := unit / 16;
    var b := a / 16;
    var c := b / 16;
    assert unit == 16 * a + unit % 16 && a == 16 * b + a % 16 && b == 16 * c + b % 16;
    assert b == unit / 0x100 && c == unit / 0x1000;
  }

  lemma PairIsRead(high: nat, low: nat, rest: seq<Byte>)
    requires 0xD800 <= high < 0xDC00 <= low < 0xE000
    ensures ReadChar(Escape(high) + Escape(low) + rest)
            == Some((0x1_0000 + 0x400 * (high - 0xD800) + (low - 0xDC00), 12))
  {
    var bytes := Escape(high) + (Escape(low) + rest);
    UnitIsRead(high, Escape(low) + rest);
    EscapeBegins(high, Escape(low) + rest);
    UnitIsRead(low, rest);
    hide ReadUnit, Escape;
    assert bytes == Escape(high) + Escape(low) + rest && bytes[6..] == Escape(low) + rest;
  }

  lemma CharIsRead(ch: nat, rest: seq<Byte>)
    requires IsScalar(ch) && !IsControl(ch)
    ensures ReadChar(EncodeChar(ch) + rest) == Some((ch, |EncodeChar(ch)|))
  {
    hide ReadUnit, Escape;
    if 127 <= ch < 0x1_0000 {
      UnitIsRead(ch, rest);
      EscapeBegins(ch, rest);
    } else if 0x1_0000 <= ch {
      var high, low := 0xD800 + (ch - 0x1_0000) / 0x400, 0xDC00 + (ch - 0x1_0000) % 0x400;
      hide ReadChar;
      PairIsRead(high, low, rest);
      assert EncodeChar(ch) == Escape(high) + Escape(low);
    }
  }

  lemma EscapeBegins(unit: nat, rest: seq<Byte>)
    requires unit < 0x1_0000
    ensures |Escape(unit) + rest| >= 6 && (Escape(unit) + rest)[0] == 92 && (Escape(unit) + rest)[1] == 117
  {
  }

  lemma {:induction false} TextIsRead(text: Text, rest: seq<Byte>)
    requires forall i :: 0 <= i < |text| ==> IsScalar(text[i]) && !IsControl(text[i])
    ensures ReadText(EncodeText(text) + rest, []) == ReadText(rest, text)
    decreases |text|
  {
    hide ReadChar, EncodeChar, IsScalar, IsControl;
    if text == [] {
      assert EncodeText(text) + rest == rest;
    } else {
      var n := |text| - 1;
      var more := EncodeChar(text[n]) + rest;
      TextIsRead(text[..n], more);
      CharIsRead(text[n], rest);
      assert EncodeText(text) + rest == EncodeText(text[..n]) + more;
      assert more[|EncodeChar(text[n])|..] == rest && text[..n] + [text[n]] == text;
    }
  }

  lemma {:induction false} NumberIsRead(text: seq<Byte>, rest: seq<Byte>, read: seq<Byte>)
    requires forall i :: 0 <= i < |text| ==> IsNumberByte(text[i])
    requires rest == [] || !IsNumberByte(rest[0])
    ensures ReadNumber(text + rest, read) == (read + text, rest)
    decreases |text|
  {
    hide IsNumberByte;
    if text == [] {
      assert text + rest == rest && read + text == read;
    } else {
      assert (text + rest)[1..] == text[1..] + rest && (read + [text[0]]) + text[1..] == read + text;
      NumberIsRead(text[1..], rest, read + [text[0]]);
    }
  }

  predicate EndsNumber(rest: seq<Byte>) {
    rest != [] && !IsNumberByte(rest[0])
  }

  lemma MetricIsRead(m: Metric, rest: seq<Byte>)
    requires ValidKey(m.key) && NumberText(m.number) && EndsNumber(rest)
    ensures ReadMetric(EncodeMetric(m) + rest) == Some((m, rest))
  {
    var number := m.number + rest;
    var closing := Ascii("\":") + number;
    var text := EncodeText(m.key) + closing;
    assert EncodeMetric(m) + rest == Ascii("\"") + text;
    ExpectFinds("\"", text);
    QuoteEndsText(m.key, number);
    ExpectFinds("\":", number);
    NumberIsRead(m.number, rest, []);
    assert [] + m.number == m.number;
  }

  lemma QuoteEndsText(key: Text, number: seq<Byte>)
    requires forall i :: 0 <= i < |key| ==> IsScalar(key[i]) && !IsControl(key[i])
    ensures ReadText(EncodeText(key) + (Ascii("\":") + number), []) == (key, Ascii("\":") + number)
  {
    TextIsRead(key, Ascii("\":") + number);
    assert (Ascii("\":") + number)[0] == 34;
  }

  lemma {:induction false} MetricsAreRead(metrics: seq<Metric>, rest: seq<Byte>)
    requires metrics != [] && EndsNumber(rest)
    requires forall i :: 0 <= i < |metrics| ==> ValidKey(metrics[i].key) && NumberText(metrics[i].number)
    ensures ReadMetrics(Join(EncodeMetrics(metrics)) + rest, [])
            == if rest[0] == 44 then ReadMetrics(rest[1..], metrics) else Some((metrics, rest))
    decreases |metrics|
  {
    hide ReadMetric, EncodeMetric, ValidKey, NumberText;
    var n := |metrics| - 1;
    MetricIsRead(metrics[n], rest);
    var last := EncodeMetric(metrics[n]) + rest;
    JoinedMetrics(metrics, rest);
    if n > 0 {
      MetricsAreRead(metrics[..n], [44] + last);
      assert ([44] + last)[1..] == last && metrics[..n] + [metrics[n]] == metrics;
    } else {
      assert [] + [metrics[0]] == metrics;
    }
  }

  lemma JoinedMetrics(metrics: seq<Metric>, rest: seq<Byte>)
    requires metrics != [] && forall i :: 0 <= i < |metrics| ==> ValidKey(metrics[i].key)
    ensures var n := |metrics| - 1;
            var last := EncodeMetric(metrics[n]) + rest;
            Join(EncodeMetrics(metrics)) + rest
            == if n == 0 then last else Join(EncodeMetrics(metrics[..n])) + ([44] + last)
  {
    hide EncodeMetric;
    var n := |metrics| - 1;
    if n > 0 {
      assert EncodeMetrics(metrics)[..n] == EncodeMetrics(metrics[..n]);
      assert EncodeMetrics(metrics)[n] == EncodeMetric(metrics[n]);
    }
  }

  lemma Regroup(a: seq<Byte>, b: seq<Byte>, c: seq<Byte>, d: seq<Byte>, e: seq<Byte>, f: seq<Byte>)
    ensures a + b + c + d + e + f == a + (b + (c + (d + (e + f))))
  {
  }

  /** An encoded point is read back, whatever follows it. */
  lemma PointIsRead(p: Point, rest: seq<Byte>)
    requires Normalized(p)
    ensures ReadPoint(EncodePoint(p) + rest) == Some((p, rest))
  {
    hide ReadMetrics, ReadField, Expect, EncodeMetrics, Join, Decimal, ValidKey, NumberText, Ascii;
    var closing := Ascii("}") + rest;
    var timestamp := Ascii(",\"timestamp_ms\":") + (Decimal(p.timestamp) + closing);
    var step := Ascii(",\"step\":") + (Decimal(p.step) + timestamp);
    var sequence := Ascii("},\"sequence\":") + (Decimal(p.sequence) + step);
    PointPieces(p, rest, closing, timestamp, step, sequence);
    FirstBytes(rest, p.timestamp, p.step, p.sequence, closing, timestamp, step, sequence);
    ExpectFinds("{\"metrics\":{", Join(EncodeMetrics(p.metrics)) + sequence);
    MetricsAreRead(p.metrics, sequence);
    FieldIsRead("},\"sequence\":", p.sequence, step);
    FieldIsRead(",\"step\":", p.step, timestamp);
    FieldIsRead(",\"timestamp_ms\":", p.timestamp, closing);
    ExpectFinds("}", rest);
  }

  lemma PointPieces(p: Point, rest: seq<Byte>, closing: seq<Byte>, timestamp: seq<Byte>, step: seq<Byte>,
                    sequence: seq<Byte>)
    requires Normalized(p) && closing == Ascii("}") + rest
    requires timestamp == Ascii(",\"timestamp_ms\":") + (Decimal(p.timestamp) + closing)
    requires step == Ascii(",\"step\":") + (Decimal(p.step) + timestamp)
    requires sequence == Ascii("},\"sequence\":") + (Decimal(p.sequence) + step)
    ensures EncodePoint(p) + rest == Ascii("{\"metrics\":{") + (Join(EncodeMetrics(p.metrics)) + sequence)
  {
    hide EncodeMetrics, Join, Decimal, ValidKey, NumberText, Ascii;
    var metrics := Ascii("{\"metrics\":{") + Join(EncodeMetrics(p.metrics));
    var upToStep := metrics + Ascii("},\"sequence\":") + Decimal(p.sequence) + Ascii(",\"step\":") + Decimal(p.step);
    Regroup(upToStep, Ascii(",\"timestamp_ms\":"), Decimal(p.timestamp), Ascii("}"), rest, []);
    assert closing + [] == closing && rest + [] == rest;
    assert EncodePoint(p) + rest
           == upToStep + Ascii(",\"timestamp_ms\":") + Decimal(p.timestamp) + Ascii("}") + rest + [];
    assert EncodePoint(p) + rest == upToStep + timestamp;
    Regroup(metrics, Ascii("},\"sequence\":"), Decimal(p.sequence), Ascii(",\"step\":"), Decimal(p.step), timestamp);
    assert EncodePoint(p) + rest == metrics + sequence;
  }

  lemma FirstBytes(rest: seq<Byte>, t: nat, s: nat, n: nat, closing: seq<Byte>, timestamp: seq<Byte>, step: seq<Byte>,
                   sequence: seq<Byte>)
    requires closing == Ascii("}") + rest && timestamp == Ascii(",\"timestamp_ms\":") + (Decimal(t) + closing)
    requires step == Ascii(",\"step\":") + (Decimal(s) + timestamp)
    requires sequence == Ascii("},\"sequence\":") + (Decimal(n) + step)
    ensures NoDigitFirst(closing) && NoDigitFirst(timestamp) && NoDigitFirst(step)
    ensures EndsNumber(sequence) && sequence[0] != 44
  {
    hide Decimal;
  }

  /** The decoder knows every normalized point by its sequence. */
  lemma DecodeDecodesPoints()
    ensures DecodesPoints(Decode)
  {
    hide Normalized, ReadPoint, EncodePoint;
    forall p | Normalized(p)
      ensures Decode(EncodePoint(p)) == Some(p.sequence)
    {
      PointIsRead(p, []);
      assert EncodePoint(p) + [] == EncodePoint(p);
    }
  }

  function EncodeAll(points: seq<Point>): (lines: seq<Line>)
    requires forall i :: 0 <= i < |points| ==> Normalized(points[i])
    ensures |lines| == |points| && forall i :: 0 <= i < |points| ==> lines[i] == EncodePoint(points[i])
  {
    seq(|points|, i requires 0 <= i < |points| => EncodePoint(points[i]))
  }

  lemma {:induction false} PointsAreRead(points: seq<Point>, rest: seq<Byte>)
    requires points != [] && rest != [] && forall i :: 0 <= i < |points| ==> Normalized(points[i])
    ensures ReadPoints(Join(EncodeAll(points)) + rest, [])
            == if rest[0] == 44 then ReadPoints(rest[1..], points) else Some((points, rest))
    decreases |points|
  {
    hide ReadPoint, EncodePoint, Normalized;
    var n := |points| - 1;
    PointIsRead(points[n], rest);
    var last := EncodePoint(points[n]) + rest;
    JoinedPoints(points, rest);
    if n > 0 {
      PointsAreRead(points[..n], [44] + last);
      assert ([44] + last)[1..] == last && points[..n] + [points[n]] == points;
    } else {
      assert [] + [points[0]] == points;
    }
  }

  lemma JoinedPoints(points: seq<Point>, rest: seq<Byte>)
    requires points != [] && forall i :: 0 <= i < |points| ==> Normalized(points[i])
    ensures var n := |points| - 1;
            var last := EncodePoint(points[n]) + rest;
            Join(EncodeAll(points)) + rest == if n == 0 then last else Join(EncodeAll(points[..n])) + ([44] + last)
  {
    hide EncodePoint, Normalized;
    var n := |points| - 1;
    if n > 0 {
      assert EncodeAll(points)[..n] == EncodeAll(points[..n]);
      assert EncodeAll(points)[n] == EncodePoint(points[n]);
    }
  }

  /** The request body of a batch of points is read back as that batch. */
  lemma RequestIsRead(n: nat, points: seq<Point>)
    requires points != [] && forall i :: 0 <= i < |points| ==> Normalized(points[i])
    ensures ReadRequest(EncodeRequest(n, EncodeAll(points))) == Some((n, points))
  {
    hide ReadPoints, ReadField, Expect, Join, Decimal, Normalized, Ascii;
    var closing := Ascii("]}") + [];
    var list := Join(EncodeAll(points)) + closing;
    var middle := Ascii(",\"points\":[") + list;
    Regroup(Ascii("{\"batch_sequence\":"), Decimal(n), Ascii(",\"points\":["), Join(EncodeAll(points)), Ascii("]}"),
            []);
    assert EncodeRequest(n, EncodeAll(points)) + [] == EncodeRequest(n, EncodeAll(points));
    ClosingBytes(closing, middle, list);
    FieldIsRead("{\"batch_sequence\":", n, middle);
    ExpectFinds(",\"points\":[", list);
    PointsAreRead(points, closing);
    ExpectFinds("]}", []);
  }

  lemma ClosingBytes(closing: seq<Byte>, middle: seq<Byte>, list: seq<Byte>)
    requires closing == Ascii("]}") + [] && middle == Ascii(",\"points\":[") + list
    ensures closing != [] && closing[0] != 44 && NoDigitFirst(middle)
  {
  }

  // -------------------------------------------------------------- whole runs

  lemma {:induction false} LinesOfPoints(lines: seq<Line>, a: nat, b: nat) returns (points: seq<Point>)
    requires AllPoints(lines) && a <= b <= |lines|
    ensures |points| == b - a && forall i :: 0 <= i < |points| ==> Normalized(points[i])
    ensures EncodeAll(points) == lines[a..b]
    decreases b
  {
    hide Normalized, EncodePoint;
    if a == b {
      points := [];
    } else {
      var before := LinesOfPoints(lines, a, b - 1);
      var p :| Normalized(p) && lines[b - 1] == EncodePoint(p);
      points := before + [p];
      assert forall i :: 0 <= i < b - a ==> EncodeAll(points)[i] == lines[a..b][i];
    }
  }

  /** A live delivery's request, read back, is the identity and the logged points of its window, in order. */
  lemma PersistedRequestIsRead(c: Setup, s: State, steps: seq<Step>) returns (points: seq<Point>)
    requires Initial(c, s) && AllInformed(c, s, steps) && LogsPoints(steps)
    requires Run(c, s, steps).files.LiveDelivery().Some?
    ensures forall i :: 0 <= i < |points| ==> Normalized(points[i])
    ensures var f := Run(c, s, steps).files;
            var d := f.LiveDelivery().value;
            && StandAt(f.journal, d.start, d.end, EncodeAll(points))
            && d.request.Some? && ReadRequest(d.request.value) == Some((d.identity, points))
  {
    hide Normalized, EncodePoint, ReadRequest, LogsPoints, AllInformed;
    var a, b, r := RunKeeps(c, s, steps);
    var t := Run(c, s, steps);
    hide Run;
    JournalHoldsPoints(c, s, steps);
    points := WindowIsRead(c, t, a, b, r);
  }

  lemma WindowIsRead(c: Setup, t: State, a: nat, b: nat, r: nat) returns (points: seq<Point>)
    requires Inv(c, t, a, b, r) && AllPoints(Journal(t)) && t.files.LiveDelivery().Some?
    ensures forall i :: 0 <= i < |points| ==> Normalized(points[i])
    ensures var f := t.files;
            var d := f.LiveDelivery().value;
            && StandAt(f.journal, d.start, d.end, EncodeAll(points))
            && d.request.Some? && ReadRequest(d.request.value) == Some((d.identity, points))
  {
    hide *;
    var lines := LiveWindow(c, t, a, b, r);
    points := LinesOfPoints(lines, a, b);
    SomePoints(points, lines, a, b);
    RequestIsRead(c.First() + a, points);
    WindowStands(t.files.journal, a, b);
  }

  lemma SomePoints(points: seq<Point>, lines: seq<Line>, a: nat, b: nat)
    requires |points| == b - a && a < b
    ensures points != []
  {
  }

  lemma LiveWindow(c: Setup, t: State, a: nat, b: nat, r: nat) returns (lines: seq<Line>)
    requires Inv(c, t, a, b, r) && t.files.LiveDelivery().Some?
    ensures lines == Journal(t) == Lines(t.files.journal) && a < b <= |lines|
    ensures var d := t.files.LiveDelivery().value;
            && d.start == Offset(lines, a) && d.end == Offset(lines, b) && d.identity == c.First() + a
            && d.request == Some(EncodeRequest(c.First() + a, lines[a..b]))
  {
    hide Lines, Offset, Numbered, Within, NetworkOk, ServerOk, ClientOk, JournalOk, EncodeRequest;
    lines := Journal(t);
  }

  lemma WindowStands(journal: seq<Byte>, a: nat, b: nat)
    requires a <= b <= |Lines(journal)|
    ensures StandAt(journal, Offset(Lines(journal), a), Offset(Lines(journal), b), Lines(journal)[a..b])
  {
    JournalSplits(journal);
    LinesAreNewlineFree(journal);
    var lines := Lines(journal);
    hide Lines, Tail, Frame;
    FrameSplit(lines, a, b);
    assert journal[Offset(lines, a)..Offset(lines, b)] == Frame(lines)[Offset(lines, a)..Offset(lines, b)];
  }
}

/**
  Metric points as the client logs them.  A point that passes normalization encodes to a
  short newline-free line, so it can always be journalled and always fits a request.
 */
module Points {
  import opened Wrappers
  import opened Framing
  import opened Requests
  import opened Spool
  import opened SpoolLaws
  import opened ExactlyOnce
  import opened DeliveryTheorems

  const MAX_METRICS_PER_POINT: nat := 256
  const MAX_METRIC_KEY_BYTES: nat := 256
  const MAX_SAFE_INTEGER: nat := 0x1F_FFFF_FFFF_FFFF
  const MAX_METRIC_REQUEST_BYTES: nat := 1_750_000

  /** The longest shortest-form text of a finite double has a sign, 17 digits, a point and a 5-byte exponent. */
  const MAX_NUMBER_BYTES: nat := 24

  /** A string as its Unicode scalar values. */
  type Text = seq<nat>

  datatype Metric = Metric(key: Text, number: seq<Byte>)

  datatype Point = Point(sequence: nat, step: nat, timestamp: nat, metrics: seq<Metric>)

  predicate IsScalar(ch: nat) {
    ch < 0xD800 || 0xE000 <= ch < 0x11_0000
  }

  /** The control category of Unicode. */
  predicate IsControl(ch: nat) {
    ch < 32 || 127 <= ch < 160
  }

  function Utf8Length(ch: nat): nat {
    if ch < 0x80 then 1 else if ch < 0x800 then 2 else if ch < 0x1_0000 then 3 else 4
  }

  function Utf8Bytes(text: Text): nat {
    if text == [] then 0 else Utf8Bytes(text[..|text| - 1]) + Utf8Length(text[|text| - 1])
  }

  predicate ValidKey(key: Text) {
    && 0 < Utf8Bytes(key) <= MAX_METRIC_KEY_BYTES
    && forall i :: 0 <= i < |key| ==> IsScalar(key[i]) && !IsControl(key[i])
  }

  /** Digits, sign, point and exponent. */
  predicate IsNumberByte(b: Byte) {
    48 <= b <= 57 || b == 43 || 45 <= b <= 46 || b == 101
  }

  predicate NumberText(text: seq<Byte>) {
    && 0 < |text| <= MAX_NUMBER_BYTES
    && forall i :: 0 <= i < |text| ==> IsNumberByte(text[i])
  }

  /** What `normalize_metrics` and the checks on sequence and step let through; numbers are finite doubles. */
  predicate Normalized(p: Point) {
    && p.sequence <= MAX_SAFE_INTEGER && p.step <= MAX_SAFE_INTEGER && p.timestamp <= U64_MAX
    && 0 < |p.metrics| <= MAX_METRICS_PER_POINT
    && forall i :: 0 <= i < |p.metrics| ==>
         ValidKey(p.metrics[i].key) && NumberText(p.metrics[i].number)
  }

  // --------------------------------------------------------------- encoding

  function HexDigit(d: nat): Byte
    requires d < 16
  {
    (if d < 10 then 48 + d else 87 + d) as Byte
  }

  /** One UTF-16 code unit as a JSON escape. */
  function Escape(unit: nat): (bytes: seq<Byte>)
    requires unit < 0x1_0000
    ensures |bytes| == 6 && NewlineFree(bytes)
  {
    [92, 117, HexDigit(unit / 0x1000), HexDigit(unit / 0x100 % 16), HexDigit(unit / 16 % 16), HexDigit(unit % 16)]
  }

  /** A character of an ASCII-only JSON string; beyond the basic plane it takes a surrogate pair. */
  function EncodeChar(ch: nat): (bytes: seq<Byte>)
    requires IsScalar(ch) && !IsControl(ch)
    ensures |bytes| <= 3 * Utf8Length(ch) && NewlineFree(bytes)
  {
    if ch == 34 || ch == 92 then [92, ch as Byte]
    else if ch < 127 then [ch as Byte]
    else if ch < 0x1_0000 then Escape(ch)
    else
      var low, high := Escape(0xDC00 + (ch - 0x1_0000) % 0x400), Escape(0xD800 + (ch - 0x1_0000) / 0x400);
      high + low
  }

  function EncodeText(text: Text): seq<Byte>
    requires forall i :: 0 <= i < |text| ==> IsScalar(text[i]) && !IsControl(text[i])
  {
    if text == [] then [] else EncodeText(text[..|text| - 1]) + EncodeChar(text[|text| - 1])
  }

  function EncodeMetric(m: Metric): seq<Byte>
    requires ValidKey(m.key)
  {
    Ascii("\"") + EncodeText(m.key) + Ascii("\":") + m.number
  }

  function EncodeMetrics(metrics: seq<Metric>): (encoded: seq<seq<Byte>>)
    requires forall i :: 0 <= i < |metrics| ==> ValidKey(metrics[i].key)
    ensures |encoded| == |metrics| && forall i :: 0 <= i < |metrics| ==> encoded[i] == EncodeMetric(metrics[i])
  {
    seq(|metrics|, i requires 0 <= i < |metrics| => EncodeMetric(metrics[i]))
  }

  /** The canonical journal line, keys sorted and no spaces. */
  function EncodePoint(p: Point): Line
    requires Normalized(p)
  {
    Ascii("{\"metrics\":{") + Join(EncodeMetrics(p.metrics)) + Ascii("},\"sequence\":") + Decimal(p.sequence)
    + Ascii(",\"step\":") + Decimal(p.step) + Ascii(",\"timestamp_ms\":") + Decimal(p.timestamp) + Ascii("}")
  }

  // ---------------------------------------------------------------- lengths

  lemma {:induction false} TextIsShort(text: Text)
    requires forall i :: 0 <= i < |text| ==> IsScalar(text[i]) && !IsControl(text[i])
    ensures |EncodeText(text)| <= 3 * Utf8Bytes(text) && NewlineFree(EncodeText(text))
  {
    hide EncodeChar, Utf8Length;
    if text != [] { TextIsShort(text[..|text| - 1]); }
  }

  /** A key of 256 bytes needs at most 768 when escaped, and a number 24. */
  lemma MetricIsShort(m: Metric)
    requires ValidKey(m.key) && NumberText(m.number)
    ensures |EncodeMetric(m)| <= 3 * MAX_METRIC_KEY_BYTES + 3 + MAX_NUMBER_BYTES && NewlineFree(EncodeMetric(m))
  {
    TextIsShort(m.key);
    hide EncodeText, Utf8Bytes;
  }

  function Pow10(n: nat): nat {
    if n == 0 then 1 else 10 * Pow10(n - 1)
  }

  lemma {:induction false} DecimalIsShort(n: nat, digits: nat)
    requires digits > 0 && n < Pow10(digits)
    ensures |Decimal(n)| <= digits && NewlineFree(Decimal(n))
  {
    if n >= 10 {
      assert Pow10(digits) == 10 * Pow10(digits - 1) && n / 10 < Pow10(digits - 1);
      DecimalIsShort(n / 10, digits - 1);
    }
  }

  lemma SafeIntegers(n: nat)
    requires n <= MAX_SAFE_INTEGER
    ensures |Decimal(n)| <= 16 && NewlineFree(Decimal(n))
  {
    hide Decimal;
    assert Pow10(8) == 1_0000_0000 && Pow10(16) == 1_0000_0000_0000_0000;
    DecimalIsShort(n, 16);
  }

  lemma Timestamps(n: nat)
    requires n <= U64_MAX
    ensures |Decimal(n)| <= 20 && NewlineFree(Decimal(n))
  {
    hide Decimal;
    assert Pow10(10) == 100_0000_0000 && Pow10(20) == 1_0000_0000_0000_0000_0000;
    DecimalIsShort(n, 20);
  }

  lemma {:induction false} JoinIsShort(parts: seq<seq<Byte>>, bound: nat)
    requires forall i :: 0 <= i < |parts| ==> |parts[i]| <= bound && NewlineFree(parts[i])
    ensures |Join(parts)| <= |parts| * (bound + 1) && NewlineFree(Join(parts))
  {
    if |parts| > 1 {
      JoinIsShort(parts[..|parts| - 1], bound);
      assert (|parts| - 1) * (bound + 1) + (bound + 1) == |parts| * (bound + 1);
    }
  }

  const MAX_POINT_BYTES: nat := MAX_METRICS_PER_POINT * (3 * MAX_METRIC_KEY_BYTES + 4 + MAX_NUMBER_BYTES) + 102

  lemma MetricsAreShort(metrics: seq<Metric>)
    requires |metrics| <= MAX_METRICS_PER_POINT
    requires forall i :: 0 <= i < |metrics| ==> ValidKey(metrics[i].key) && NumberText(metrics[i].number)
    ensures |Join(EncodeMetrics(metrics))| <= MAX_METRICS_PER_POINT * (3 * MAX_METRIC_KEY_BYTES + 4 + MAX_NUMBER_BYTES)
    ensures NewlineFree(Join(EncodeMetrics(metrics)))
  {
    hide EncodeMetric, ValidKey, NumberText, Join, NewlineFree;
    forall i | 0 <= i < |metrics|
      ensures |EncodeMetrics(metrics)[i]| <= 3 * MAX_METRIC_KEY_BYTES + 3 + MAX_NUMBER_BYTES
      ensures NewlineFree(EncodeMetrics(metrics)[i])
    {
      MetricIsShort(metrics[i]);
    }
    JoinIsShort(EncodeMetrics(metrics), 3 * MAX_METRIC_KEY_BYTES + 3 + MAX_NUMBER_BYTES);
  }

  /** Every normalized point is a journal record. */
  lemma PointIsRecord(p: Point)
    requires Normalized(p)
    ensures NewlineFree(EncodePoint(p)) && 0 < |EncodePoint(p)| <= MAX_POINT_BYTES <= MAX_RECORD_BYTES
  {
    hide EncodeMetrics, Join, Decimal, ValidKey, NumberText, NewlineFree, Ascii;
    MetricsAreShort(p.metrics);
    SafeIntegers(p.sequence);
    SafeIntegers(p.step);
    Timestamps(p.timestamp);
    LabelIsFree("{\"metrics\":{");
    LabelIsFree("},\"sequence\":");
    LabelIsFree(",\"step\":");
    LabelIsFree(",\"timestamp_ms\":");
    LabelIsFree("}");
    var metrics := Ascii("{\"metrics\":{") + Join(EncodeMetrics(p.metrics));
    var sequence := metrics + Ascii("},\"sequence\":") + Decimal(p.sequence);
    var step := sequence + Ascii(",\"step\":") + Decimal(p.step);
    FreeTogether(Ascii("{\"metrics\":{"), Join(EncodeMetrics(p.metrics)), Ascii("},\"sequence\":"));
    FreeTogether(metrics + Ascii("},\"sequence\":"), Decimal(p.sequence), Ascii(",\"step\":"));
    FreeTogether(sequence + Ascii(",\"step\":"), Decimal(p.step), Ascii(",\"timestamp_ms\":"));
    FreeTogether(step + Ascii(",\"timestamp_ms\":"), Decimal(p.timestamp), Ascii("}"));
  }

  lemma LabelIsFree(s: string)
    requires forall i :: 0 <= i < |s| ==> s[i] as int < 128 && s[i] != '\n'
    ensures NewlineFree(Ascii(s))
  {
  }

  lemma FreeTogether(a: seq<Byte>, b: seq<Byte>, c: seq<Byte>)
    requires NewlineFree(a) && NewlineFree(b) && NewlineFree(c)
    ensures NewlineFree(a + b + c)
  {
  }

  /** Every normalized point fits a request of its own, with a factor of eight to spare. */
  lemma PointFitsRequest(p: Point)
    requires Normalized(p)
    ensures 8 * RequestSize(p.sequence, [EncodePoint(p)]) <= MAX_METRIC_REQUEST_BYTES
  {
    hide EncodePoint, Decimal;
    PointIsRecord(p);
    SafeIntegers(p.sequence);
    assert Join([EncodePoint(p)]) == EncodePoint(p);
  }

  // -------------------------------------------------------------- whole runs

  /** Every append is that of a point that passed normalization. */
  ghost predicate LogsPoints(steps: seq<Step>) {
    forall i :: 0 <= i < |steps| && steps[i].Append? ==>
      exists p :: Normalized(p) && steps[i].line == EncodePoint(p)
  }

  /** Decoding an encoded point gives back its sequence. */
  ghost predicate DecodesPoints(decode: Decoder) {
    forall p :: Normalized(p) ==> decode(EncodePoint(p)) == Some(p.sequence)
  }

  ghost predicate AllPoints(lines: seq<Line>) {
    forall k :: 0 <= k < |lines| ==> exists p :: Normalized(p) && lines[k] == EncodePoint(p)
  }

  lemma {:induction false} JournalHoldsPoints(c: Setup, s: State, steps: seq<Step>)
    requires Initial(c, s) && AllInformed(c, s, steps) && LogsPoints(steps)
    ensures AllPoints(Journal(Run(c, s, steps)))
    decreases |steps|
  {
    hide Inv, Lines, Apply, Informed, EncodePoint, Normalized;
    if steps == [] {
      EmptyJournal();
    } else {
      var before := steps[..|steps| - 1];
      JournalHoldsPoints(c, s, before);
      var a, b, r := RunKeeps(c, s, before);
      StepIsDurable(c, Run(c, s, before), steps[|steps| - 1], a, b, r);
    }
  }

  lemma PointsFit(c: Setup, lines: seq<Line>)
    requires AllPoints(lines) && Numbered(lines, c.First(), c.decode) && DecodesPoints(c.decode)
    requires c.budget == MAX_METRIC_REQUEST_BYTES
    ensures AllFit(c, lines)
  {
    hide EncodePoint, Normalized, RequestSize, Setup.First;
    forall k | 0 <= k < |lines|
      ensures Within(Some(c.budget), c.First() + k, [lines[k]])
    {
      var p :| Normalized(p) && lines[k] == EncodePoint(p);
      PointFitsRequest(p);
    }
  }

  lemma JournalIsNumbered(c: Setup, t: State, a: nat, b: nat, r: nat)
    requires Inv(c, t, a, b, r)
    ensures Numbered(Journal(t), c.First(), c.decode)
  {
    hide Numbered, Lines;
  }

  /**
    Whatever a client logs can be delivered: from every reachable state of a running run, with
    the real request budget, some continuation delivers and acknowledges the whole journal.
   */
  lemma LoggedPointsCanBeDelivered(c: Setup, s: State, steps: seq<Step>) returns (more: seq<Step>)
    requires Initial(c, s) && AllInformed(c, s, steps) && LogsPoints(steps) && DecodesPoints(c.decode)
    requires c.budget == MAX_METRIC_REQUEST_BYTES && Run(c, s, steps).server.running
    ensures AllInformed(c, s, steps + more)
    ensures var t := Run(c, s, steps + more);
            && Journal(t) == Journal(Run(c, s, steps))
            && t.server.log == c.base + Journal(t)
            && t.files.AckOffset() == |Frame(Journal(t))|
  {
    hide *;
    var a, b, r := RunKeeps(c, s, steps);
    JournalIsNumbered(c, Run(c, s, steps), a, b, r);
    JournalHoldsPoints(c, s, steps);
    PointsFit(c, Journal(Run(c, s, steps)));
    more := EveryRecordCanBeDelivered(c, s, steps);
  }
}

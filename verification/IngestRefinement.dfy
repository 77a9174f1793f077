/**
  The delivery protocol's server is the segment catalog: both answer an ingest request alike,
  and compaction in between changes neither the answers nor the log.
 */
module IngestRefinement {
  import opened Wrappers
  import opened Framing
  import opened Spool
  import opened MetricLog
  import opened SegmentCatalog
  import Delivery = ExactlyOnce
  import Compaction
  import CompactionSafety

  type Parser = Line -> Row

  /** How a canonical journal line reads as a point: faithful, and different lines differ. */
  ghost predicate Faithful(parse: Parser, decode: Decoder) {
    && (forall l :: decode(l).Some? ==> parse(l).sequence == decode(l).value)
    && (forall l, m :: decode(l).Some? && decode(m).Some? && parse(l) == parse(m) ==> l == m)
  }

  function RowsFrom(lines: seq<Line>, parse: Parser): (rows: seq<Row>)
    ensures |rows| == |lines| && forall i :: 0 <= i < |rows| ==> rows[i] == parse(lines[i])
  {
    seq(|lines|, i requires 0 <= i < |lines| => parse(lines[i]))
  }

  ghost predicate Decodable(lines: seq<Line>, decode: Decoder) {
    forall i :: 0 <= i < |lines| ==> decode(lines[i]).Some?
  }

  /** The catalog's tables hold what the protocol says the server holds. */
  ghost predicate Represents(s: Delivery.Server, t: Tables, parse: Parser, decode: Decoder) {
    && LogOf(t.segments) == RowsFrom(s.log, parse) && Decodable(s.log, decode)
    && s.running == t.running && s.batches.Keys == t.batches.Keys
    && forall b :: b in s.batches ==>
         s.batches[b].batchSequence == b && Decodable(s.batches[b].points, decode)
         && t.batches[b] == RowsFrom(s.batches[b].points, parse)
  }

  /** The same outcome in the two vocabularies. */
  predicate SameOutcome(reply: Delivery.Reply, r: Result<Registration, CatalogError>) {
    match reply
    case Accepted => r == Ok(Registration.Accepted)
    case Duplicate => r == Ok(AlreadyAccepted)
    case DigestConflict => r == Err(BatchReused)
    case RunFinished => r == Err(CatalogError.RunFinished)
    case SequenceGap => r == Err(CatalogError.SequenceGap)
    case Invalid => false
  }

  lemma RowsAreInjective(a: seq<Line>, b: seq<Line>, parse: Parser, decode: Decoder)
    requires Faithful(parse, decode) && Decodable(a, decode) && Decodable(b, decode)
    requires RowsFrom(a, parse) == RowsFrom(b, parse)
    ensures a == b
  {
    assert |a| == |RowsFrom(a, parse)| == |b|;
    forall i | 0 <= i < |a|
      ensures a[i] == b[i]
    {
      assert RowsFrom(a, parse)[i] == RowsFrom(b, parse)[i];
    }
  }

  lemma BatchIsValid(points: seq<Line>, parse: Parser, decode: Decoder)
    requires Faithful(parse, decode) && Delivery.ValidBatch(points, decode)
    ensures Compaction.ValidBatch(RowsFrom(points, parse)) && Decodable(points, decode)
  {
  }

  /** The next sequence the protocol expects is one past the tail of the catalog's last segment. */
  lemma ResumePositionIsTail(s: Delivery.Server, t: Tables, parse: Parser, decode: Decoder)
    requires Faithful(parse, decode) && Represents(s, t, parse, decode) && Tiled(t.segments)
    ensures t.segments == [] <==> s.log == []
    ensures t.segments == [] ==> Delivery.NextSequence(s.log, decode) == 1
    ensures t.segments != [] ==> Delivery.NextSequence(s.log, decode) == t.segments[|t.segments| - 1].last + 1
  {
    hide Tiled;
    if t.segments == [] {
      assert Paths(t.segments) == [];
    } else {
      TiledLogIsConsecutive(t.segments);
      hide LogOf;
      var n := |s.log| - 1;
      assert RowsFrom(s.log, parse)[n].sequence == t.segments[|t.segments| - 1].last;
    }
  }

  /** One ingest request: the protocol's server and the catalog answer alike and stay in step. */
  lemma RegistrationRefines(s: Delivery.Server, t: Tables, q: Delivery.Request, parse: Parser, decode: Decoder)
    requires Faithful(parse, decode) && Represents(s, t, parse, decode) && CompactionSafety.TablesSound(t)
    requires Delivery.ValidBatch(q.points, decode)
    ensures RowsFrom(q.points, parse) != []
    ensures var rows := RowsFrom(q.points, parse);
            var (u, r) := Registered(t, q.batchSequence, rows, Compaction.SegmentOf(q.batchSequence, rows));
            var (v, reply) := Delivery.Handle(s, q, decode);
            SameOutcome(reply, r) && Represents(v, u, parse, decode) && CompactionSafety.TablesSound(u)
  {
    hide Delivery.ValidBatch, CompactionSafety.TablesSound, LogOf, Insert, MaxLast, HasPath, Faithful;
    BatchIsValid(q.points, parse, decode);
    var rows := RowsFrom(q.points, parse);
    var b := q.batchSequence;
    if b in s.batches {
      if t.batches[b] == rows { RowsAreInjective(s.batches[b].points, q.points, parse, decode); }
    } else if t.running {
      NewBatch(s, t, q, parse, decode);
    }
  }

  lemma PointsAreThere(points: seq<Line>, decode: Decoder)
    requires Delivery.ValidBatch(points, decode)
    ensures points != [] && decode(points[0]).Some?
  {
  }

  lemma NewBatch(s: Delivery.Server, t: Tables, q: Delivery.Request, parse: Parser, decode: Decoder)
    requires Faithful(parse, decode) && Represents(s, t, parse, decode) && CompactionSafety.TablesSound(t)
    requires Delivery.ValidBatch(q.points, decode) && q.batchSequence !in t.batches && t.running
    ensures RowsFrom(q.points, parse) != []
    ensures var rows := RowsFrom(q.points, parse);
            var (u, r) := Registered(t, q.batchSequence, rows, Compaction.SegmentOf(q.batchSequence, rows));
            var (v, reply) := Delivery.Handle(s, q, decode);
            SameOutcome(reply, r) && Represents(v, u, parse, decode) && CompactionSafety.TablesSound(u)
  {
    hide LogOf, MaxLast, Delivery.ValidBatch, Delivery.NextSequence, Delivery.Handle, Registered, Represents, Tiled,
         Faithful, CompactionSafety.TablesSound, Compaction.SegmentOf, Compaction.ValidBatch;
    PointsAreThere(q.points, decode);
    BatchIsValid(q.points, parse, decode);
    var rows := RowsFrom(q.points, parse);
    var segment := Compaction.SegmentOf(q.batchSequence, rows);
    FirstOfBatch(q, parse, decode);
    TablesAreTiled(t);
    ResumePositionIsTail(s, t, parse, decode);
    RefusalsAgree(s, t, q, segment, parse, decode);
    CompactionSafety.RegistrationOutcome(t, q.batchSequence, rows);
    if Registered(t, q.batchSequence, rows, segment).1 == Ok(Registration.Accepted) {
      CompactionSafety.RegistrationIsSound(t, q.batchSequence, rows);
      StillRepresents(s, t, Registered(t, q.batchSequence, rows, segment).0, q, parse, decode);
    }
  }

  lemma TablesAreTiled(t: Tables)
    requires CompactionSafety.TablesSound(t)
    ensures Tiled(t.segments) && (t.segments != [] ==> MaxLast(t.segments) == t.segments[|t.segments| - 1].last)
  {
    hide Tiled, CompactionSafety.Known, CompactionSafety.Covered;
    if t.segments != [] { MaxLastOfTiled(t.segments); }
  }

  lemma FirstOfBatch(q: Delivery.Request, parse: Parser, decode: Decoder)
    requires Faithful(parse, decode) && q.points != [] && decode(q.points[0]).Some?
    ensures RowsFrom(q.points, parse) != []
    ensures decode(q.points[0]) == Some(Compaction.SegmentOf(q.batchSequence, RowsFrom(q.points, parse)).first)
  {
    hide KeysOf;
  }

  /** Both sides refuse a new batch of a running run for the same reason, or neither does. */
  lemma RefusalsAgree(s: Delivery.Server, t: Tables, q: Delivery.Request, segment: Segment, parse: Parser,
                      decode: Decoder)
    requires Represents(s, t, parse, decode) && Delivery.ValidBatch(q.points, decode)
    requires q.points != [] && q.batchSequence !in t.batches && t.running && decode(q.points[0]) == Some(segment.first)
    requires t.segments != [] ==> MaxLast(t.segments) == t.segments[|t.segments| - 1].last
    requires t.segments == [] <==> s.log == []
    requires t.segments != [] ==> Delivery.NextSequence(s.log, decode) == t.segments[|t.segments| - 1].last + 1
    ensures var (u, r) := Registered(t, q.batchSequence, RowsFrom(q.points, parse), segment);
            var (v, reply) := Delivery.Handle(s, q, decode);
            && (r == Err(CatalogError.SequenceGap) ==> reply == Delivery.SequenceGap && v == s)
            && (r == Ok(Registration.Accepted) ==>
                  && reply == Delivery.Accepted
                  && v == s.(log := s.log + q.points, batches := s.batches[q.batchSequence := q]))
  {
    hide LogOf, Insert, HasPath, MaxLast, Delivery.ValidBatch, Delivery.NextSequence;
  }

  lemma StillRepresents(s: Delivery.Server, t: Tables, u: Tables, q: Delivery.Request, parse: Parser, decode: Decoder)
    requires Represents(s, t, parse, decode) && Decodable(q.points, decode)
    requires u.batches == t.batches[q.batchSequence := RowsFrom(q.points, parse)] && u.running == t.running
    requires LogOf(u.segments) == LogOf(t.segments) + RowsFrom(q.points, parse)
    ensures Represents(s.(log := s.log + q.points, batches := s.batches[q.batchSequence := q]), u, parse, decode)
  {
    hide LogOf;
    assert RowsFrom(s.log + q.points, parse) == RowsFrom(s.log, parse) + RowsFrom(q.points, parse);
  }

  /** A compaction in between is invisible to the protocol. */
  lemma CompactionIsInvisible(s: Delivery.Server, t: Tables, sources: seq<Segment>, target: nat, parse: Parser,
                              decode: Decoder)
    requires Represents(s, t, parse, decode) && CompactionSafety.TablesSound(t)
    requires CompactionSafety.SourcesSound(t, sources, target)
    ensures sources != []
    ensures var u := Replaced(t, sources, Compacted(sources)).0;
            Represents(s, u, parse, decode) && CompactionSafety.TablesSound(u)
  {
    hide LogOf, Compacted, Replaced, CompactionSafety.TablesSound;
    CompactionSafety.ReplacementIsSound(t, sources, target);
  }
}

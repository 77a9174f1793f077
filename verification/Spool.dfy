/**
  The client's durable spool of one metric journal: `events.jsonl`, `ack`,
  `delivery.json` and the summary checkpoint offset kept in `run.json`.

  Decoding a record is a parameter `decode`: it yields the sequence number of a
  well-formed record and `None` for a malformed one.  The SHA-256 digest of a
  request is represented by the request bytes themselves.
 */
module Spool {
  import opened Wrappers
  import opened Framing
  import opened Requests

  const MAX_RECORD_BYTES: nat := 2 * 1024 * 1024

  type Decoder = Line -> Option<nat>

  datatype Fault =
    | RecordTooLong
    | IncompleteRecord
    | MalformedRecord
    | AckOutsideJournal
    | DeliveryOutsideJournal
    | TailAcknowledged
    | TailCheckpointed
    | BoundarySplitsRecord
    | BoundaryOutsideJournal
    | OverBudget
    | IdentityMismatch
    | RequestMismatch
    | AckMismatch

  /** `delivery.json`: the byte window of a batch whose outcome is unknown. */
  datatype Delivery = Delivery(start: nat, end: nat, identity: nat, request: Option<seq<Byte>>)

  datatype SpoolFiles = SpoolFiles(
    journal: seq<Byte>,
    ack: Option<nat>,
    delivery: Option<Delivery>,
    checkpoint: nat)
  {
    function AckOffset(): nat {
      if ack.Some? then ack.value else 0
    }

    /** The delivery window after dropping one that is already acknowledged. */
    function LiveDelivery(): Option<Delivery> {
      if delivery.Some? && delivery.value.end <= AckOffset() then None else delivery
    }

    predicate DeliveryFits(size: nat) {
      var live := LiveDelivery();
      live.Some? ==> live.value.start == AckOffset() && live.value.end <= size
    }
  }

  // ------------------------------------------------------------ recovery

  /** Why a spool cannot be opened; `None` when it can. */
  function RecoveryFault(f: SpoolFiles): Option<Fault> {
    var end := CompleteLength(f.journal);
    if Tail(f.journal) == [] then None
    else if |Tail(f.journal)| > MAX_RECORD_BYTES then Some(RecordTooLong)
    else if f.AckOffset() > |f.journal| then Some(AckOutsideJournal)
    else if f.AckOffset() > end then Some(TailAcknowledged)
    else if !f.DeliveryFits(end) then Some(DeliveryOutsideJournal)
    else if f.checkpoint > end then Some(TailCheckpointed)
    else None
  }

  /** Opening keeps exactly the complete records and discards only a torn tail. */
  function AfterRecovery(f: SpoolFiles): SpoolFiles {
    if Tail(f.journal) == [] then f
    else match RecoveryFault(f)
      case None => f.(journal := Frame(Lines(f.journal)), delivery := f.LiveDelivery())
      case Some(TailCheckpointed) => f.(delivery := f.LiveDelivery())
      case Some(_) => f
  }

  /** The delivery is as it was, or it was acknowledged already and is gone. */
  predicate KeepsDelivery(f: SpoolFiles, after: Option<Delivery>) {
    || after == f.delivery
    || (after.None? && f.delivery.value.end <= if f.ack.Some? then f.ack.value else 0)
  }

  /** Nothing that counts reaches past byte `end`. */
  predicate NothingPast(f: SpoolFiles, end: nat) {
    var ack := if f.ack.Some? then f.ack.value else 0;
    && ack <= end && f.checkpoint <= end
    && (f.delivery.Some? && ack < f.delivery.value.end ==> f.delivery.value.start == ack && f.delivery.value.end <= end)
  }

  /**
    Opening succeeds exactly if there is no torn tail or if the tail is short and nothing
    reaches into it; then the journal is cut behind its last newline.  Otherwise it stays.
   */
  ghost predicate IsRecovery(f: SpoolFiles, after: SpoolFiles, fault: Option<Fault>) {
    var end := CompleteLength(f.journal);
    && after.ack == f.ack && after.checkpoint == f.checkpoint && KeepsDelivery(f, after.delivery)
    && (fault.None? <==>
          end == |f.journal| || (|f.journal| - end <= MAX_RECORD_BYTES && NothingPast(f, end)))
    && after.journal == if fault.Some? then f.journal else f.journal[..end]
  }

  lemma RecoveryIsDeclared(f: SpoolFiles)
    ensures IsRecovery(f, AfterRecovery(f), RecoveryFault(f))
  {
    JournalSplits(f.journal);
    hide Lines, Frame;
    assert f.journal == f.journal[..CompleteLength(f.journal)] + Tail(f.journal);
  }

  // ------------------------------------------------------ batch selection

  function ReadFault(tail: seq<Byte>): Fault {
    if |tail| > MAX_RECORD_BYTES + 1 then RecordTooLong else IncompleteRecord
  }

  /**
    The records a selection takes from `rest`, the complete records after the
    ones already `taken`; `pos` is the byte position of `rest` in the journal.
   */
  function Select(rest: seq<Line>, tail: seq<Byte>, pos: nat, taken: seq<Line>, limit: nat,
                  fixedEnd: Option<nat>, budget: Option<nat>, decode: Decoder)
    : Result<(seq<Line>, nat), Fault>
    decreases |rest|
  {
    if fixedEnd.None? && |taken| >= limit then Ok((taken, pos))
    else if fixedEnd.Some? && pos >= fixedEnd.value then Ok((taken, pos))
    else if rest == [] then
      if tail == [] then Ok((taken, pos)) else Err(ReadFault(tail))
    else if |rest[0]| > MAX_RECORD_BYTES then Err(RecordTooLong)
    else
      var next := pos + |rest[0]| + 1;
      if fixedEnd.Some? && next > fixedEnd.value then Err(BoundarySplitsRecord)
      else if decode(rest[0]).None? then Err(MalformedRecord)
      else if fixedEnd.None? && budget.Some?
              && RequestSize(FirstSequence(taken + [rest[0]], decode), taken + [rest[0]]) > budget.value then
        if taken == [] then Err(OverBudget) else Ok((taken, pos))
      else Select(rest[1..], tail, next, taken + [rest[0]], limit, fixedEnd, budget, decode)
  }

  function FirstSequence(lines: seq<Line>, decode: Decoder): nat
    requires lines != []
  {
    if decode(lines[0]).Some? then decode(lines[0]).value else 0
  }

  function RequestFor(lines: seq<Line>, budget: Option<nat>, decode: Decoder): Option<seq<Byte>>
    requires lines != []
  {
    if budget.Some? then Some(EncodeRequest(FirstSequence(lines, decode), lines)) else None
  }

  /** What a reading that stopped after `selected` persists and returns. */
  function Conclude(g: SpoolFiles, offset: nat, selected: Result<(seq<Line>, nat), Fault>,
                    budget: Option<nat>, decode: Decoder)
    : (SpoolFiles, Result<(seq<Line>, nat), Fault>)
  {
    if selected.Err? then (g, selected)
    else
      var (lines, next) := selected.value;
      if g.delivery.Some? && next != g.delivery.value.end then (g, Err(BoundaryOutsideJournal))
      else if lines == [] then (g, selected)
      else
        var request := RequestFor(lines, budget, decode);
        if request.Some? && |request.value| > budget.value then (g, Err(OverBudget))
        else if g.delivery.None? then
          (g.(delivery := Some(Delivery(offset, next, FirstSequence(lines, decode), request))), selected)
        else if g.delivery.value.identity != FirstSequence(lines, decode) then (g, Err(IdentityMismatch))
        else if request.Some? && g.delivery.value.request != request then (g, Err(RequestMismatch))
        else (g, selected)
  }

  function FixedEnd(delivery: Option<Delivery>): Option<nat> {
    if delivery.Some? then Some(delivery.value.end) else None
  }

  /** The new files and the outcome of reading the next batch of at most `limit` records. */
  function ReadBatch(f: SpoolFiles, limit: nat, budget: Option<nat>, decode: Decoder)
    : (SpoolFiles, Result<(seq<Line>, nat), Fault>)
  {
    var offset := f.AckOffset();
    if offset > |f.journal| then (f, Err(AckOutsideJournal))
    else if !f.DeliveryFits(|f.journal|) then (f, Err(DeliveryOutsideJournal))
    else
      var g := f.(delivery := f.LiveDelivery());
      var rest := f.journal[offset..];
      Conclude(g, offset, Select(Lines(rest), Tail(rest), offset, [], limit, FixedEnd(g.delivery), budget, decode),
               budget, decode)
  }

  /** These records are what the journal holds from one position to another. */
  predicate StandAt(journal: seq<Byte>, start: nat, end: nat, lines: seq<Line>) {
    start <= end <= |journal| && AllNewlineFree(lines) && journal[start..end] == Frame(lines)
  }

  /** ... and all of them are well formed. */
  predicate Collected(journal: seq<Byte>, start: nat, end: nat, lines: seq<Line>, decode: Decoder) {
    StandAt(journal, start, end, lines) && forall i :: 0 <= i < |lines| ==> decode(lines[i]).Some?
  }

  /** The persisted request fits the budget and carries exactly these records under the identity. */
  ghost predicate CarriesPoints(d: Delivery, lines: seq<Line>, budget: nat) {
    d.request.Some? && |d.request.value| <= budget && IsRequest(d.request.value, d.identity, lines)
  }

  lemma NothingCollected(journal: seq<Byte>, at: nat, decode: Decoder)
    requires at <= |journal|
    ensures Collected(journal, at, at, [], decode)
  {
  }

  lemma OneMoreCollected(journal: seq<Byte>, start: nat, end: nat, lines: seq<Line>, line: Line, decode: Decoder)
    requires Collected(journal, start, end, lines, decode) && end <= |journal|
    requires ReadLine(journal[end..]) == Complete(line) && decode(line).Some?
    ensures Collected(journal, start, end + |line| + 1, lines + [line], decode)
  {
    FrameSnoc(lines, line);
    assert journal[end..end + |line| + 1] == line + [NEWLINE];
    assert journal[start..end + |line| + 1] == journal[start..end] + journal[end..end + |line| + 1];
  }

  /** The files after `_acknowledge`, which first checks the delivery window. */
  function Acknowledged(f: SpoolFiles, offset: nat): (SpoolFiles, Option<Fault>) {
    if f.delivery.Some? && f.delivery.value.end != offset then (f, Some(AckMismatch))
    else (f.(ack := Some(offset), delivery := None), None)
  }

  // ------------------------------------------------------- the directory

  datatype LineRead = EndOfFile | Complete(line: Line) | Broken(fault: Fault)

  /** The next line of an open journal, or why it cannot be read. */
  function ReadLine(rest: seq<Byte>): LineRead {
    if rest == [] then EndOfFile
    else if NewlineFree(rest) then Broken(ReadFault(rest))
    else
      var i := FirstNewline(rest);
      if i > MAX_RECORD_BYTES then Broken(RecordTooLong) else Complete(rest[..i])
  }

  lemma ReadLineIsFirst(rest: seq<Byte>)
    ensures rest == [] ==> Lines(rest) == [] && Tail(rest) == []
    ensures rest != [] && NewlineFree(rest) ==> Lines(rest) == [] && Tail(rest) == rest
    ensures !NewlineFree(rest) ==>
              var i := FirstNewline(rest);
              Lines(rest) == [rest[..i]] + Lines(rest[i + 1..]) && Tail(rest) == Tail(rest[i + 1..])
  {
    if NewlineFree(rest) {
      CompleteLengthUnique(rest, 0);
    } else {
      var i := FirstNewline(rest);
      assert rest == rest[..i] + [NEWLINE] + rest[i + 1..];
      LinesPrepend(rest[..i], rest[i + 1..]);
    }
  }

  lemma WindowFindsBoundary(journal: seq<Byte>, start: nat)
    requires start <= |journal|
    ensures CompleteLength(journal) > start ==> CompleteLength(journal[start..]) == CompleteLength(journal) - start
    ensures CompleteLength(journal) <= start ==> CompleteLength(journal[start..]) == 0
  {
    hide *;
    var n := CompleteLength(journal);
    CompleteLengthUnique(journal[start..], if n > start then n - start else 0);
  }

  lemma TornIffTail(journal: seq<Byte>)
    ensures Tail(journal) == [] <==> journal == [] || journal[|journal| - 1] == NEWLINE
    ensures CompleteLength(journal) <= |journal| && |Tail(journal)| == |journal| - CompleteLength(journal)
  {
  }

  lemma CompletePrefix(journal: seq<Byte>)
    ensures CompleteLength(journal) <= |journal| && journal[..CompleteLength(journal)] == Frame(Lines(journal))
  {
    JournalSplits(journal);
  }

  predicate HasLastRecord(journal: seq<Byte>) {
    Tail(journal) == [] && Lines(journal) != [] && Lines(journal)[|Lines(journal)| - 1] != []
  }

  lemma LastRecordShape(journal: seq<Byte>)
    requires HasLastRecord(journal)
    ensures var last := Lines(journal)[|Lines(journal)| - 1];
            EndsWithRecord(journal, last)
  {
    hide Frame, Lines, Tail, CompleteLength, NewlineFree, EndsWithRecord;
    JournalSplits(journal);
    LinesAreNewlineFree(journal);
    var lines := Lines(journal);
    var init, last := lines[..|lines| - 1], lines[|lines| - 1];
    assert lines == init + [last];
    assert Frame(lines) + [] == Frame(lines);
    FrameEndsWithRecord(init, last);
  }

  predicate EndsWithRecord(journal: seq<Byte>, last: Line) {
    var start := |journal| - |last| - 1;
    && NewlineFree(last) && start >= 0
    && journal[start..] == last + [NEWLINE]
    && (start == 0 || journal[start - 1] == NEWLINE)
  }

  lemma FrameEndsWithRecord(init: seq<Line>, last: Line)
    requires NewlineFree(last)
    ensures EndsWithRecord(Frame(init + [last]), last)
  {
    FrameSnoc(init, last);
    FrameEndsWithNewline(init);
    assert Frame(init + [last])[|Frame(init)|..] == last + [NEWLINE];
  }

  /** Where a backward scan from the end of a journal stops. */
  predicate ScanStops(journal: seq<Byte>, r: Result<nat, Fault>) {
    match r
    case Ok(position) =>
      && position < |journal|
      && (forall j :: position <= j < |journal| - 2 ==> journal[j] != NEWLINE)
      && (position > 0 ==>
            journal[position - 1] == NEWLINE && |journal| - MAX_RECORD_BYTES - 1 <= position < |journal| - 1)
    case Err(fault) =>
      && fault == RecordTooLong && |journal| >= MAX_RECORD_BYTES + 3
      && forall j :: |journal| - MAX_RECORD_BYTES - 2 <= j < |journal| - 2 ==> journal[j] != NEWLINE
  }

  /** A scan that met no newline since `position` is inside the last record. */
  lemma InsideLastRecord(journal: seq<Byte>, last: Line, position: nat)
    requires EndsWithRecord(journal, last) && last != [] && position < |journal|
    requires forall j :: position <= j < |journal| - 2 ==> journal[j] != NEWLINE
    ensures var start := |journal| - |last| - 1;
            && start <= position
            && (position == 0 || (journal[position - 1] == NEWLINE && position < |journal| - 1) ==> position == start)
  {
    var start := |journal| - |last| - 1;
    if start < position < |journal| - 1 {
      assert journal[position - 1] == journal[start..][position - 1 - start] == last[position - 1 - start];
    }
  }

  /**
    What the scan makes of any journal, torn or not: it overlooks a newline in the last two
    bytes, and so a last line that is empty or a tail of one byte, and reads the line before.
   */
  function LastLine(journal: seq<Byte>): Result<Option<Line>, Fault> {
    var start := if |journal| < 2 then 0 else CompleteLength(journal[..|journal| - 2]);
    if start > 0 && |journal| - start > MAX_RECORD_BYTES + 1 then Err(RecordTooLong)
    else OutcomeOfRead(ReadLine(journal[start..]))
  }

  lemma ScanReadsLastLine(journal: seq<Byte>, r: Result<nat, Fault>)
    requires journal != [] && ScanStops(journal, r)
    ensures LastLine(journal) == if r.Err? then Err(r.error) else OutcomeOfRead(ReadLine(journal[r.value..]))
  {
    hide CompleteLength, ReadLine, OutcomeOfRead, ScanStops;
    if |journal| >= 2 {
      var start := CompleteLength(journal[..|journal| - 2]);
      ScanPosition(journal, start, r);
      assert journal[0..] == journal;
      if r.Err? && start == 0 { LongLineIsRefused(journal); }
      OutcomeOfBroken();
    } else {
      ScanOfOneByte(journal, r);
    }
  }

  lemma OutcomeOfBroken()
    ensures OutcomeOfRead(Broken(RecordTooLong)) == Err(RecordTooLong)
  {
  }

  lemma ScanOfOneByte(journal: seq<Byte>, r: Result<nat, Fault>)
    requires |journal| == 1 && ScanStops(journal, r)
    ensures r == Ok(0)
  {
  }

  lemma ScanPosition(journal: seq<Byte>, start: nat, r: Result<nat, Fault>)
    requires |journal| >= 2 && start == CompleteLength(journal[..|journal| - 2]) && ScanStops(journal, r)
    ensures r.Ok? ==> r.value == start && (start > 0 ==> |journal| - start <= MAX_RECORD_BYTES + 1)
    ensures r.Err? ==> r.error == RecordTooLong && |journal| - start > MAX_RECORD_BYTES + 1
    ensures r.Err? ==> |journal| >= MAX_RECORD_BYTES + 3
    ensures forall j :: start <= j < |journal| - 2 ==> journal[j] != NEWLINE
  {
    var n := |journal|;
    hide CompleteLength;
    assert start > 0 ==> journal[start - 1] == journal[..n - 2][start - 1];
    assert forall j :: start <= j < n - 2 ==> journal[j] == journal[..n - 2][j];
  }

  lemma LongLineIsRefused(rest: seq<Byte>)
    requires |rest| >= MAX_RECORD_BYTES + 3 && forall j :: 0 <= j < |rest| - 2 ==> rest[j] != NEWLINE
    ensures ReadLine(rest) == Broken(RecordTooLong)
  {
  }

  function LastRecordOutcome(journal: seq<Byte>): Result<Option<Line>, Fault>
    requires HasLastRecord(journal)
  {
    RecordOutcome(Lines(journal)[|Lines(journal)| - 1])
  }

  function RecordOutcome(last: Line): Result<Option<Line>, Fault> {
    if |last| > MAX_RECORD_BYTES then Err(RecordTooLong) else Ok(Some(last))
  }

  function OutcomeOfRead(read: LineRead): Result<Option<Line>, Fault> {
    match read
    case EndOfFile => Ok(None)
    case Broken(fault) => Err(fault)
    case Complete(line) => Ok(if line == [] then None else Some(line))
  }

  lemma ScanReadsRecord(journal: seq<Byte>, last: Line, r: Result<nat, Fault>)
    requires EndsWithRecord(journal, last) && last != [] && ScanStops(journal, r)
    ensures RecordOutcome(last) == if r.Err? then Err(r.error) else OutcomeOfRead(ReadLine(journal[r.value..]))
  {
    InsideLastRecord(journal, last, if r.Ok? then r.value else |journal| - MAX_RECORD_BYTES - 2);
    LastRecordIsRead(journal, last);
  }

  lemma ScanFindsLastRecord(journal: seq<Byte>, r: Result<nat, Fault>)
    requires HasLastRecord(journal) && ScanStops(journal, r)
    ensures LastRecordOutcome(journal) == if r.Err? then Err(r.error) else OutcomeOfRead(ReadLine(journal[r.value..]))
  {
    LastRecordShape(journal);
    ScanReadsRecord(journal, Lines(journal)[|Lines(journal)| - 1], r);
  }

  lemma LastRecordIsRead(journal: seq<Byte>, last: Line)
    requires EndsWithRecord(journal, last)
    ensures ReadLine(journal[|journal| - |last| - 1..])
            == if |last| > MAX_RECORD_BYTES then Broken(RecordTooLong) else Complete(last)
  {
    var rest := journal[|journal| - |last| - 1..];
    assert rest[|last|] == NEWLINE && rest[..|last|] == last;
    assert FirstNewline(rest) == |last|;
  }

  class SpoolDirectory {
    var journal: seq<Byte>
    var ack: Option<nat>
    var delivery: Option<Delivery>
    var checkpoint: nat

    ghost function Files(): SpoolFiles
      reads this
    {
      SpoolFiles(journal, ack, delivery, checkpoint)
    }

    constructor ()
      ensures Files() == SpoolFiles([], None, None, 0)
    {
      journal, ack, delivery, checkpoint := [], None, None, 0;
    }

    /** The acknowledged offset, checked against the whole journal. */
    method ReadAck() returns (r: Result<nat, Fault>)
      ensures r == if Files().AckOffset() > |journal| then Err(AckOutsideJournal) else Ok(Files().AckOffset())
    {
      match ack {
        case None => return Ok(0);
        case Some(offset) =>
          if offset > |journal| { return Err(AckOutsideJournal); }
          return Ok(offset);
      }
    }

    /** The live delivery window; one that ends at or before `offset` is unlinked. */
    method ReadDelivery(offset: nat, size: nat) returns (r: Result<Option<Delivery>, Fault>)
      requires offset == Files().AckOffset()
      modifies this`delivery
      ensures delivery == old(Files()).LiveDelivery()
      ensures r == if old(Files()).DeliveryFits(size) then Ok(delivery) else Err(DeliveryOutsideJournal)
    {
      if delivery.None? { return Ok(None); }
      var current := delivery.value;
      if current.end <= offset {
        delivery := None;
        return Ok(None);
      }
      if current.start != offset || current.end <= current.start || current.end > size {
        return Err(DeliveryOutsideJournal);
      }
      return Ok(Some(current));
    }

    /** Only the last `MAX_RECORD_BYTES + 1` bytes are looked at, never the history. */
    method RecoverInterruptedAppend() returns (fault: Option<Fault>)
      modifies this
      ensures fault == RecoveryFault(old(Files()))
      ensures Files() == AfterRecovery(old(Files()))
      ensures IsRecovery(old(Files()), Files(), fault)
    {
      hide CompleteLength, Lines, Frame, Tail, NewlineFree;
      ghost var before := Files();
      var size := |journal|;
      RecoveryIsDeclared(before);
      hide IsRecovery;
      TornIffTail(journal);
      if size == 0 { return None; }
      if journal[size - 1] == NEWLINE { return None; }
      var start := if size > MAX_RECORD_BYTES + 1 then size - MAX_RECORD_BYTES - 1 else 0;
      var boundary := CompleteLength(journal[start..]);
      WindowFindsBoundary(journal, start);
      if boundary == 0 && start > 0 { return Some(RecordTooLong); }
      var end := start + boundary;
      if size - end > MAX_RECORD_BYTES { return Some(RecordTooLong); }
      var offset := ReadAck();
      if offset.Err? { return Some(offset.error); }
      if offset.value > end { return Some(TailAcknowledged); }
      var live := ReadDelivery(offset.value, end);
      if live.Err? { return Some(live.error); }
      if checkpoint > end { return Some(TailCheckpointed); }
      CompletePrefix(journal);
      journal := journal[..end];
      return None;
    }

    method AppendRecord(encoded: Line) returns (r: Result<nat, Fault>)
      modifies this`journal
      ensures |encoded| > MAX_RECORD_BYTES ==> r == Err(RecordTooLong) && journal == old(journal)
      ensures |encoded| <= MAX_RECORD_BYTES ==>
                journal == old(journal) + encoded + [NEWLINE] && r == Ok(|journal|)
    {
      if |encoded| > MAX_RECORD_BYTES { return Err(RecordTooLong); }
      journal := journal + encoded + [NEWLINE];
      return Ok(|journal|);
    }

    /** The next records of the journal, whose window is persisted with the request that carries them. */
    method ReadRecordBatch(limit: nat, budget: Option<nat>, decode: Decoder)
      returns (r: Result<(seq<Line>, nat), Fault>)
      modifies this`delivery
      ensures (Files(), r) == ReadBatch(old(Files()), limit, budget, decode)
      ensures r.Ok? ==> StandAt(journal, old(Files()).AckOffset(), r.value.1, r.value.0)
      ensures r.Ok? && r.value.0 != [] ==>
                && delivery.Some? && delivery.value.start == old(Files()).AckOffset() && delivery.value.end == r.value.1
                && decode(r.value.0[0]) == Some(delivery.value.identity)
                && (budget.Some? ==> CarriesPoints(delivery.value, r.value.0, budget.value))
      ensures r.Err? || r.value.0 == [] ==> KeepsDelivery(old(Files()), delivery)
    {
      var offset := ReadAck();
      if offset.Err? { return Err(offset.error); }
      var live := ReadDelivery(offset.value, |journal|);
      if live.Err? { return Err(live.error); }
      var fixedEnd := FixedEnd(live.value);
      var collected := CollectRecords(offset.value, limit, fixedEnd, budget, decode);
      if collected.Err? { return Err(collected.error); }
      var (lines, next) := collected.value;
      if fixedEnd.Some? && next != fixedEnd.value { return Err(BoundaryOutsideJournal); }
      if lines == [] { return Ok((lines, next)); }
      var request := RequestFor(lines, budget, decode);
      RequestIsDeclared(FirstSequence(lines, decode), lines);
      hide IsRequest, EncodeRequest, Select, StandAt;
      if request.Some? && |request.value| > budget.value { return Err(OverBudget); }
      if live.value.None? {
        delivery := Some(Delivery(offset.value, next, FirstSequence(lines, decode), request));
      }
      if delivery.value.identity != FirstSequence(lines, decode) { return Err(IdentityMismatch); }
      if request.Some? && delivery.value.request != request { return Err(RequestMismatch); }
      return Ok((lines, next));
    }

    /** The reading loop of `_read_record_batch`, one journal line at a time. */
    method CollectRecords(offset: nat, limit: nat, fixedEnd: Option<nat>, budget: Option<nat>, decode: Decoder)
      returns (r: Result<(seq<Line>, nat), Fault>)
      requires offset <= |journal|
      ensures r
              == Select(Lines(journal[offset..]), Tail(journal[offset..]), offset, [], limit, fixedEnd, budget, decode)
      ensures r.Ok? ==> Collected(journal, offset, r.value.1, r.value.0, decode)
    {
      hide CompleteLength, Lines, Tail, EncodeRequest, RequestSize, IncrementalSize, ReadFault, FirstNewline,
           Collected;
      NothingCollected(journal, offset, decode);
      var lines: seq<Line>, pos, pointBytes := [], offset, 0;
      ghost var goal := Select(Lines(journal[offset..]), Tail(journal[offset..]), offset, [], limit, fixedEnd,
                               budget, decode);
      while |lines| < limit || fixedEnd.Some?
        invariant pos <= |journal| && pointBytes == TotalBytes(lines)
        invariant Select(Lines(journal[pos..]), Tail(journal[pos..]), pos, lines, limit, fixedEnd, budget, decode)
                  == goal
        invariant Collected(journal, offset, pos, lines, decode)
        decreases |journal| - pos
      {
        if fixedEnd.Some? && pos >= fixedEnd.value { break; }
        ghost var rest := journal[pos..];
        ReadLineIsFirst(rest);
        var read := ReadLine(journal[pos..]);
        match read {
          case EndOfFile => break;
          case Broken(fault) => return Err(fault);
          case Complete(line) =>
            var next := pos + |line| + 1;
            assert journal[next..] == rest[|line| + 1..];
            if fixedEnd.Some? && next > fixedEnd.value { return Err(BoundarySplitsRecord); }
            if decode(line).None? { return Err(MalformedRecord); }
            TotalBytesSnoc(lines, line);
            RequestSizeIncremental(FirstSequence(lines + [line], decode), lines, line);
            if budget.Some? && fixedEnd.None? {
              var first := FirstSequence(lines + [line], decode);
              if IncrementalSize(first, pointBytes + |line|, |lines| + 1) > budget.value {
                if lines == [] { return Err(OverBudget); }
                break;
              }
            }
            OneMoreCollected(journal, offset, pos, lines, line, decode);
            lines, pos, pointBytes := lines + [line], next, pointBytes + |line|;
        }
      }
      return Ok((lines, pos));
    }

    /** Moves the ack to `offset` and drops the delivery, unless a persisted delivery ends elsewhere. */
    method Acknowledge(offset: nat) returns (fault: Option<Fault>)
      modifies this
      ensures fault.Some? <==> old(delivery).Some? && old(delivery).value.end != offset
      ensures fault.Some? ==> fault.value == AckMismatch && Files() == old(Files())
      ensures fault.None? ==> ack == Some(offset) && delivery == None
                              && journal == old(journal) && checkpoint == old(checkpoint)
      ensures (Files(), fault) == Acknowledged(old(Files()), offset)
    {
      if delivery.Some? && delivery.value.end != offset { return Some(AckMismatch); }
      ack := Some(offset);
      delivery := None;
      return None;
    }

    /** Scans backwards from the end of the journal to the start of its last record. */
    method ScanBack() returns (r: Result<nat, Fault>)
      requires journal != []
      ensures ScanStops(journal, r)
    {
      var end := |journal|;
      var position := end - 1;
      while position > 0
        invariant 0 <= position <= end - 1 <= position + MAX_RECORD_BYTES + 1
        invariant forall j :: position <= j < end - 2 ==> journal[j] != NEWLINE
      {
        if end - position > MAX_RECORD_BYTES + 1 { return Err(RecordTooLong); }
        if journal[position - 1] == NEWLINE && position < end - 1 { break; }
        position := position - 1;
      }
      return Ok(position);
    }

    method LastRecord() returns (r: Result<Option<Line>, Fault>)
      ensures journal == [] ==> r == Ok(None)
      ensures journal != [] ==> r == LastLine(journal)
      ensures HasLastRecord(journal) ==> r == LastRecordOutcome(journal)
    {
      if journal == [] { return Ok(None); }
      var position := ScanBack();
      if HasLastRecord(journal) { ScanFindsLastRecord(journal, position); }
      ScanReadsLastLine(journal, position);
      hide *;
      if position.Err? { return Err(position.error); }
      return OutcomeOfRead(ReadLine(journal[position.value..]));
    }
  }
}

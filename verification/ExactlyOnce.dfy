/**
  The crash-recoverable delivery of one metric journal to the server.

  Client processes come and go; each step below is one durable write, one network
  event or one server transaction.  Requests that were sent once may reach the
  server at any later time and any number of times.
 */
module ExactlyOnce {
  import opened Wrappers
  import opened Framing
  import opened Spool
  import opened SpoolLaws

  const MAX_BATCH_POINTS: nat := 1024

  // -------------------------------------------------------------- server

  /** The request body; the server recomputes its digest from these contents. */
  datatype Request = Request(batchSequence: nat, points: seq<Line>)

  datatype Server = Server(log: seq<Line>, batches: map<nat, Request>, running: bool)

  datatype Reply = Accepted | Duplicate | DigestConflict | SequenceGap | RunFinished | Invalid

  function NextSequence(log: seq<Line>, decode: Decoder): nat {
    if log == [] then 1 else
      match decode(log[|log| - 1])
      case Some(n) => n + 1
      case None => 1
  }

  ghost predicate ValidBatch(points: seq<Line>, decode: Decoder) {
    && 0 < |points| <= MAX_BATCH_POINTS
    && (forall i :: 0 <= i < |points| ==> decode(points[i]).Some?)
    && (forall i :: 0 < i < |points| ==> decode(points[i]).value == decode(points[i - 1]).value + 1)
  }

  /** `process_ingest_batch` with `register_batch` as one transaction. */
  ghost function Handle(s: Server, q: Request, decode: Decoder): (Server, Reply) {
    if !ValidBatch(q.points, decode) then (s, Invalid)
    else if q.batchSequence in s.batches then
      (s, if s.batches[q.batchSequence] == q then Duplicate else DigestConflict)
    else if !s.running then (s, RunFinished)
    else if s.log != [] && decode(q.points[0]) != Some(NextSequence(s.log, decode)) then (s, SequenceGap)
    else (s.(log := s.log + q.points, batches := s.batches[q.batchSequence := q]), Accepted)
  }

  ghost predicate Registered(s: Server, q: Request) {
    q.batchSequence in s.batches && s.batches[q.batchSequence] == q
  }

  // -------------------------------------------------------------- system

  datatype Phase = Selected | Answered | Acked

  datatype Outgoing = Outgoing(request: Request, end: nat, phase: Phase)

  datatype Client = Closed | Open(nextSequence: nat, outgoing: Option<Outgoing>)

  datatype State = State(files: SpoolFiles, client: Client,
                         requests: set<Request>, replies: set<Request>, server: Server)

  /** What stays fixed during a run: `base` is what the server held before this spool was created. */
  datatype Setup = Setup(decode: Decoder, budget: nat, base: seq<Line>) {
    function First(): nat {
      NextSequence(base, decode)
    }
  }

  datatype Step =
    | OpenSpool(online: bool)
    | Append(line: Line)
    | TornAppend(line: Line, written: nat)
    | Crash
    | SelectBatch(limit: nat)
    | Send
    | Serve(request: Request)
    | Receive
    | GiveUp
    | WriteAck
    | UnlinkDelivery
    | Checkpoint
    | FinishRun

  ghost predicate Initial(c: Setup, s: State) {
    && s.files == SpoolFiles([], None, None, 0)
    && s.client == Closed && s.requests == {} && s.replies == {}
    && s.server.log == c.base
    && (c.base == [] ==> s.server.batches == map[])
    && (forall k :: k in s.server.batches ==> k < c.First())
  }

  /** The first sequence a reopened client uses, from the last record it holds itself. */
  function LocalNext(f: SpoolFiles, decode: Decoder): Option<nat> {
    var lines := Lines(f.journal);
    if lines == [] then Some(1) else
      match decode(lines[|lines| - 1])
      case Some(n) => Some(n + 1)
      case None => None
  }

  function ApplyOpen(c: Setup, s: State, online: bool): State {
    if s.client.Open? then s else
      var files := AfterRecovery(s.files);
      var next := LocalNext(files, c.decode);
      if RecoveryFault(s.files).Some? || next.None? || (online && !s.server.running) then s.(files := files)
      else
        var sequence := if online then Max(next.value, NextSequence(s.server.log, c.decode)) else next.value;
        s.(files := files, client := Open(sequence, None))
  }

  predicate Appendable(c: Setup, s: State, line: Line) {
    && s.client.Open? && NewlineFree(line) && 0 < |line| <= MAX_RECORD_BYTES
    && c.decode(line) == Some(s.client.nextSequence)
  }

  function ApplyAppend(c: Setup, s: State, line: Line): State {
    if !Appendable(c, s, line) then s
    else s.(files := s.files.(journal := s.files.journal + line + [NEWLINE]),
            client := s.client.(nextSequence := s.client.nextSequence + 1))
  }

  /** The process dies after `written` bytes of the record reached the file. */
  function ApplyTornAppend(c: Setup, s: State, line: Line, written: nat): State {
    if !Appendable(c, s, line) || written > |line| then s
    else s.(files := s.files.(journal := s.files.journal + line[..written]), client := Closed)
  }

  function ApplySelect(c: Setup, s: State, limit: nat): State {
    if !s.client.Open? || s.client.outgoing.Some? || !(1 <= limit <= MAX_BATCH_POINTS) then s else
      var (files, batch) := ReadBatch(s.files, limit, Some(c.budget), c.decode);
      if batch.Err? || batch.value.0 == [] then s.(files := files) else
        var (lines, end) := batch.value;
        var request := Request(FirstSequence(lines, c.decode), lines);
        s.(files := files, client := s.client.(outgoing := Some(Outgoing(request, end, Selected))))
  }

  predicate InPhase(s: State, phase: Phase) {
    s.client.Open? && s.client.outgoing.Some? && s.client.outgoing.value.phase == phase
  }

  function ApplySend(s: State): State {
    if !InPhase(s, Selected) then s
    else s.(requests := s.requests + {s.client.outgoing.value.request})
  }

  ghost function ApplyServe(c: Setup, s: State, q: Request): State {
    if q !in s.requests then s else
      var (server, reply) := Handle(s.server, q, c.decode);
      s.(server := server, replies := if reply.Accepted? || reply.Duplicate? then s.replies + {q} else s.replies)
  }

  function ApplyReceive(s: State): State {
    if !InPhase(s, Selected) || s.client.outgoing.value.request !in s.replies then s
    else s.(client := s.client.(outgoing := Some(s.client.outgoing.value.(phase := Answered))))
  }

  /** First half of `_acknowledge`: the ack file is replaced. */
  function ApplyWriteAck(s: State): State {
    if !InPhase(s, Answered) then s else
      var o := s.client.outgoing.value;
      if Acknowledged(s.files, o.end).1.Some? then s.(client := s.client.(outgoing := None))
      else s.(files := s.files.(ack := Some(o.end)), client := s.client.(outgoing := Some(o.(phase := Acked))))
  }

  /** Second half: the delivery file is unlinked. */
  function ApplyUnlink(s: State): State {
    if !InPhase(s, Acked) then s
    else s.(files := s.files.(delivery := None), client := s.client.(outgoing := None))
  }

  ghost function Apply(c: Setup, s: State, step: Step): State {
    match step
    case OpenSpool(online) => ApplyOpen(c, s, online)
    case Append(line) => ApplyAppend(c, s, line)
    case TornAppend(line, written) => ApplyTornAppend(c, s, line, written)
    case Crash => s.(client := Closed)
    case SelectBatch(limit) => ApplySelect(c, s, limit)
    case Send => ApplySend(s)
    case Serve(q) => ApplyServe(c, s, q)
    case Receive => ApplyReceive(s)
    case GiveUp => if s.client.Open? then s.(client := s.client.(outgoing := None)) else s
    case WriteAck => ApplyWriteAck(s)
    case UnlinkDelivery => ApplyUnlink(s)
    case Checkpoint => if s.client.Open? then s.(files := s.files.(checkpoint := |s.files.journal|)) else s
    case FinishRun => s.(server := s.server.(running := false))
  }

  ghost function Run(c: Setup, s: State, steps: seq<Step>): State {
    if steps == [] then s else Apply(c, Run(c, s, steps[..|steps| - 1]), steps[|steps| - 1])
  }

  // ----------------------------------------------------------- invariant

  function Journal(s: State): seq<Line> {
    Lines(s.files.journal)
  }

  function Window(c: Setup, lines: seq<Line>, a: nat, b: nat): Request
    requires a <= b <= |lines|
  {
    Request(c.First() + a, lines[a..b])
  }

  ghost predicate JournalOk(c: Setup, s: State) {
    && Numbered(Journal(s), c.First(), c.decode)
    && |Tail(s.files.journal)| <= MAX_RECORD_BYTES
    && s.files.checkpoint <= CompleteLength(s.files.journal)
    && (s.client.Open? ==> Tail(s.files.journal) == [] && s.client.nextSequence == c.First() + |Journal(s)|)
  }

  /** Records before `a` are acknowledged; `b > a` iff records `a..b` are persisted for delivery. */
  ghost predicate WindowOk(c: Setup, f: SpoolFiles, a: nat, b: nat) {
    var lines := Lines(f.journal);
    && a <= b <= |lines|
    && f.AckOffset() == Offset(lines, a)
    && (a == b ==> f.LiveDelivery().None?)
    && (a < b ==>
          && f.delivery == Some(WindowOf(lines, a, b, Some(c.budget), c.First()))
          && b - a <= MAX_BATCH_POINTS && Within(Some(c.budget), c.First() + a, lines[a..b]))
  }

  /** The server holds exactly the first `r` records, up to the ack or to the window's end. */
  ghost predicate ServerOk(c: Setup, s: State, a: nat, b: nat, r: nat) {
    && (r == a || r == b) && r <= |Journal(s)|
    && s.server.log == c.base + Journal(s)[..r]
    && (forall k :: k in s.server.batches ==> k < c.First() + r)
  }

  ghost predicate NetworkOk(c: Setup, s: State, a: nat, b: nat, r: nat)
    requires a <= b <= |Journal(s)|
  {
    && (forall q :: q in s.requests ==> ValidBatch(q.points, c.decode))
    && (forall q :: q in s.requests ==> Registered(s.server, q) || (a < b && q == Window(c, Journal(s), a, b)))
    && (forall q :: q in s.replies ==> Registered(s.server, q))
    && (a < b == r ==> Registered(s.server, Window(c, Journal(s), a, b)))
  }

  ghost predicate ClientOk(c: Setup, s: State, a: nat, b: nat)
    requires a <= b <= |Journal(s)|
  {
    s.client.Open? && s.client.outgoing.Some? ==>
      var o := s.client.outgoing.value;
      && (o.phase == Acked ==> a == b && o.end == s.files.AckOffset())
      && (o.phase != Acked ==> a < b && o.request == Window(c, Journal(s), a, b) && o.end == Offset(Journal(s), b))
      && (o.phase == Answered ==> Registered(s.server, o.request))
  }

  ghost predicate Inv(c: Setup, s: State, a: nat, b: nat, r: nat) {
    && JournalOk(c, s)
    && WindowOk(c, s.files, a, b)
    && ServerOk(c, s, a, b, r)
    && NetworkOk(c, s, a, b, r)
    && ClientOk(c, s, a, b)
  }

  lemma InitialInv(c: Setup, s: State)
    requires Initial(c, s)
    ensures Inv(c, s, 0, 0, 0)
  {
    hide NextSequence, ValidBatch, Window;
    assert c.base + [] == c.base;
  }

  // ------------------------------------------------------ each step keeps it

  lemma ServerNext(c: Setup, s: State, a: nat, b: nat, r: nat)
    requires Inv(c, s, a, b, r)
    ensures NextSequence(s.server.log, c.decode) == c.First() + r
  {
    var lines := Journal(s);
    if r > 0 {
      assert s.server.log[|s.server.log| - 1] == lines[r - 1];
    } else {
      assert s.server.log == c.base;
    }
  }

  lemma WindowFits(c: Setup, f: SpoolFiles, a: nat, b: nat)
    requires WindowOk(c, f, a, b)
    ensures f.AckOffset() <= CompleteLength(f.journal) <= |f.journal|
    ensures f.DeliveryFits(CompleteLength(f.journal)) && f.DeliveryFits(|f.journal|)
    ensures a < b ==> f.LiveDelivery() == f.delivery
  {
    var lines := Lines(f.journal);
    JournalSplits(f.journal);
    hide Frame, Lines, CompleteLength, Tail, Within, Offset;
    OffsetInjective(lines, a, b);
    FrameSplit(lines, a, b);
  }

  lemma WindowKept(c: Setup, f: SpoolFiles, g: SpoolFiles, a: nat, b: nat)
    requires WindowOk(c, f, a, b) && Lines(g.journal) == Lines(f.journal) && g.ack == f.ack
    requires g.delivery == f.delivery || g.delivery == f.LiveDelivery()
    ensures WindowOk(c, g, a, b)
  {
    WindowFits(c, f, a, b);
    hide Frame, Lines, CompleteLength, Tail, Within, Offset, WindowOf;
  }

  /** Recovery cannot fail and loses nothing but the torn tail. */
  lemma RecoveryKeeps(c: Setup, f: SpoolFiles, a: nat, b: nat)
    requires WindowOk(c, f, a, b) && |Tail(f.journal)| <= MAX_RECORD_BYTES && f.checkpoint <= CompleteLength(f.journal)
    ensures RecoveryFault(f).None?
    ensures var g := AfterRecovery(f);
            && WindowOk(c, g, a, b) && Lines(g.journal) == Lines(f.journal) && Tail(g.journal) == []
            && g.checkpoint == f.checkpoint <= CompleteLength(g.journal)
  {
    WindowFits(c, f, a, b);
    RecoveryKeepsCompleteRecords(f);
    assert RecoveryFault(f).None?;
    var g := AfterRecovery(f);
    CompleteLengthOfLines(f.journal, g.journal);
    assert g.ack == f.ack && g.checkpoint == f.checkpoint;
    assert g.delivery == f.delivery || g.delivery == f.LiveDelivery();
    hide *;
    WindowKept(c, f, g, a, b);
  }

  lemma CompleteLengthOfLines(s: seq<Byte>, t: seq<Byte>)
    requires Lines(s) == Lines(t)
    ensures CompleteLength(s) == CompleteLength(t)
  {
    JournalSplits(s);
    JournalSplits(t);
  }

  lemma LastNumbered(c: Setup, lines: seq<Line>)
    requires Numbered(lines, c.First(), c.decode)
    ensures lines != [] ==> c.decode(lines[|lines| - 1]) == Some(c.First() + |lines| - 1)
  {
  }

  /** The sequence a reopened client starts from continues the journal without a gap. */
  lemma ResumePosition(c: Setup, s: State, online: bool, a: nat, b: nat, r: nat)
    requires Inv(c, s, a, b, r) && s.client.Closed? && (online ==> s.server.running)
    requires c.First() == 1 || online || Journal(s) != []
    ensures ApplyOpen(c, s, online)
            == s.(files := AfterRecovery(s.files), client := Open(c.First() + |Journal(s)|, None))
  {
    hide AfterRecovery, RecoveryFault, Lines, Numbered, LocalNext, NextSequence, NetworkOk, ClientOk, WindowOk,
         Registered;
    hide CompleteLength, Tail;
    RecoveryKeeps(c, s.files, a, b);
    ServerNext(c, s, a, b, r);
    LocalNextIs(c, AfterRecovery(s.files));
    FirstIsPositive(c);
  }

  /** Otherwise a fresh journal is numbered from 1, whatever the server already holds. */
  lemma UninformedPosition(c: Setup, s: State, a: nat, b: nat, r: nat)
    requires Inv(c, s, a, b, r) && s.client.Closed? && Journal(s) == []
    ensures ApplyOpen(c, s, false) == s.(files := AfterRecovery(s.files), client := Open(1, None))
  {
    hide AfterRecovery, RecoveryFault, Lines, Numbered, LocalNext, NextSequence, NetworkOk, ClientOk, WindowOk,
         Registered;
    hide CompleteLength, Tail;
    RecoveryKeeps(c, s.files, a, b);
    LocalNextIs(c, AfterRecovery(s.files));
  }

  lemma FirstIsPositive(c: Setup)
    ensures c.First() >= 1 && (c.base == [] ==> c.First() == 1)
  {
  }

  lemma LocalNextIs(c: Setup, f: SpoolFiles)
    requires Numbered(Lines(f.journal), c.First(), c.decode)
    ensures LocalNext(f, c.decode) == Some(if Lines(f.journal) == [] then 1 else c.First() + |Lines(f.journal)|)
  {
    hide Lines;
    LastNumbered(c, Lines(f.journal));
  }

  lemma OpenKeeps(c: Setup, s: State, online: bool, a: nat, b: nat, r: nat)
    requires Inv(c, s, a, b, r)
    requires c.First() == 1 || online || Journal(s) != []
    ensures Inv(c, ApplyOpen(c, s, online), a, b, r)
  {
    if s.client.Closed? {
      RecoveryKeeps(c, s.files, a, b);
      var t := ApplyOpen(c, s, online);
      if online && !s.server.running {
        assert t.files == AfterRecovery(s.files) && t.client == s.client;
      } else {
        ResumePosition(c, s, online, a, b, r);
      }
      FilesChanged(c, s, t, a, b, r);
    }
  }

  /** Replacing the files by ones with the same records, ack and window keeps the rest. */
  lemma FilesChanged(c: Setup, s: State, t: State, a: nat, b: nat, r: nat)
    requires Inv(c, s, a, b, r) && Lines(t.files.journal) == Lines(s.files.journal)
    requires t.server == s.server && t.requests == s.requests && t.replies == s.replies
    requires JournalOk(c, t) && WindowOk(c, t.files, a, b)
    requires t.client.Open? ==> t.client.outgoing.None?
    ensures Inv(c, t, a, b, r)
  {
    hide Numbered, Lines, Registered, WindowOk, JournalOk;
  }

  lemma AppendJournal(journal: seq<Byte>, line: Line, tail: seq<Byte>)
    requires Tail(journal) == [] && NewlineFree(line) && NewlineFree(tail)
    ensures Lines(journal + line + [NEWLINE]) == Lines(journal) + [line] && Tail(journal + line + [NEWLINE]) == []
    ensures Lines(journal + tail) == Lines(journal) && Tail(journal + tail) == tail
    ensures CompleteLength(journal + tail) == CompleteLength(journal) <= CompleteLength(journal + line + [NEWLINE])
  {
    hide Frame, Lines, Tail, CompleteLength;
    var lines := Lines(journal);
    JournalSplits(journal);
    LinesAreNewlineFree(journal);
    assert journal + [] == journal == Frame(lines);
    LinesOfFrame(lines, []);
    LinesOfFrame(lines, tail);
    FrameSnoc(lines, line);
    assert Frame(lines + [line]) + [] == Frame(lines + [line]) == journal + line + [NEWLINE];
    LinesOfFrame(lines + [line], []);
  }

  lemma WindowOfExtension(c: Setup, lines: seq<Line>, more: seq<Line>, a: nat, b: nat)
    requires a <= b <= |lines|
    ensures Offset(lines + more, a) == Offset(lines, a) && Offset(lines + more, b) == Offset(lines, b)
    ensures (lines + more)[a..b] == lines[a..b]
    ensures Window(c, lines + more, a, b) == Window(c, lines, a, b)
    ensures a < b ==>
              WindowOf(lines + more, a, b, Some(c.budget), c.First())
                == WindowOf(lines, a, b, Some(c.budget), c.First())
  {
    OffsetOfExtension(lines, more, a);
    OffsetOfExtension(lines, more, b);
    assert (lines + more)[a..b] == lines[a..b];
  }

  /** Later records change nothing about the acknowledged, persisted and delivered ones. */
  lemma JournalGrown(c: Setup, s: State, t: State, more: seq<Line>, a: nat, b: nat, r: nat)
    requires Inv(c, s, a, b, r) && Journal(t) == Journal(s) + more && JournalOk(c, t)
    requires t.files.ack == s.files.ack && t.files.delivery == s.files.delivery
    requires t.server == s.server && t.requests == s.requests && t.replies == s.replies
    requires t.client.Open? ==> s.client.Open? && t.client.outgoing == s.client.outgoing
    ensures Inv(c, t, a, b, r)
  {
    hide JournalOk, Lines, Offset, Registered, WindowOf, Within, Window, ValidBatch;
    WindowOfExtension(c, Journal(s), more, a, b);
    assert Journal(t)[..r] == Journal(s)[..r];
  }

  lemma NumberedSnoc(c: Setup, lines: seq<Line>, line: Line)
    requires Numbered(lines, c.First(), c.decode) && NewlineFree(line) && 0 < |line| <= MAX_RECORD_BYTES
    requires c.decode(line) == Some(c.First() + |lines|)
    ensures Numbered(lines + [line], c.First(), c.decode)
  {
  }

  lemma AppendKeeps(c: Setup, s: State, line: Line, a: nat, b: nat, r: nat)
    requires Inv(c, s, a, b, r)
    ensures Inv(c, ApplyAppend(c, s, line), a, b, r)
  {
    hide NetworkOk, ServerOk, ClientOk, WindowOk, Numbered, Lines, Tail, CompleteLength;
    if Appendable(c, s, line) {
      var t := ApplyAppend(c, s, line);
      AppendJournal(s.files.journal, line, []);
      NumberedSnoc(c, Journal(s), line);
      JournalGrown(c, s, t, [line], a, b, r);
    }
  }

  lemma TornAppendKeeps(c: Setup, s: State, line: Line, written: nat, a: nat, b: nat, r: nat)
    requires Inv(c, s, a, b, r)
    ensures Inv(c, ApplyTornAppend(c, s, line, written), a, b, r)
  {
    hide NetworkOk, ServerOk, ClientOk, WindowOk, Numbered, Lines, Tail, CompleteLength;
    if Appendable(c, s, line) && written <= |line| {
      var t := ApplyTornAppend(c, s, line, written);
      AppendJournal(s.files.journal, line, line[..written]);
      assert Journal(t) == Journal(s) + [];
      JournalGrown(c, s, t, [], a, b, r);
    }
  }

  lemma OverBudgetSelection(lines: seq<Line>, a: nat, limit: nat, budget: Option<nat>, decode: Decoder, first: nat)
    requires Numbered(lines, first, decode) && a < |lines| && limit > 0
    requires !Within(budget, first + a, [lines[a]])
    ensures Offset(lines, a) <= |Frame(lines)|
    ensures var rest := Frame(lines)[Offset(lines, a)..];
            Select(Lines(rest), Tail(rest), Offset(lines, a), [], limit, None, budget, decode) == Err(OverBudget)
  {
    hide Frame, Lines, Tail, CompleteLength, Within, Offset, Select;
    assert Frame(lines) == Frame(lines) + [];
    JournalAtOffset(lines, [], a);
    NumberedSlice(lines, first, decode, a, |lines|);
    assert [] + lines[a..] == lines[a..] && [] + [lines[a]] == [lines[a]];
    SelectStep(lines[a..], Offset(lines, a), [], limit, budget, decode, first + a);
  }

  /** A record that does not fit the request budget on its own blocks the selection. */
  lemma FreshOverBudget(f: SpoolFiles, lines: seq<Line>, a: nat, limit: nat, budget: Option<nat>, decode: Decoder,
                        first: nat)
    requires Numbered(lines, first, decode) && f.journal == Frame(lines) && limit > 0
    requires a < |lines| && f.AckOffset() == Offset(lines, a) && f.LiveDelivery().None?
    requires !Within(budget, first + a, [lines[a]])
    ensures ReadBatch(f, limit, budget, decode) == (f.(delivery := None), Err(OverBudget))
  {
    hide Frame, Lines, Tail, CompleteLength, Within, Offset, Select, ReadBatch, Numbered;
    OverBudgetSelection(lines, a, limit, budget, decode, first);
    FreshUnfolds(f, Offset(lines, a), limit, budget, decode);
  }

  /** What a selection does in every reachable state: it never finds an inconsistent window. */
  lemma SelectionOutcome(c: Setup, s: State, limit: nat, a: nat, b: nat, r: nat) returns (b': nat)
    requires Inv(c, s, a, b, r) && s.client.Open? && 1 <= limit <= MAX_BATCH_POINTS
    ensures a <= b' <= |Journal(s)| && b' - a <= MAX_BATCH_POINTS && (a < b ==> b' == b)
    ensures a < b' ==> Within(Some(c.budget), c.First() + a, Journal(s)[a..b'])
    ensures a < b' ==> ReadBatch(s.files, limit, Some(c.budget), c.decode)
                       == (s.files.(delivery := Some(WindowOf(Journal(s), a, b', Some(c.budget), c.First()))),
                           Ok((Journal(s)[a..b'], Offset(Journal(s), b'))))
    ensures a == b' ==>
              && ReadBatch(s.files, limit, Some(c.budget), c.decode).0 == s.files.(delivery := None)
              && ReadBatch(s.files, limit, Some(c.budget), c.decode).1
                 == if a == |Journal(s)| then Ok(([], Offset(Journal(s), a))) else Err(OverBudget)
    ensures a == b' ==> a == |Journal(s)| || !Within(Some(c.budget), c.First() + a, [Journal(s)[a]])
  {
    var f, lines, budget := s.files, Journal(s), Some(c.budget);
    hide *;
    OpenJournal(c, s, a, b, r);
    if a < b {
      b' := b;
      NumberedSlice(lines, c.First(), c.decode, 0, b);
      assert lines[0..b] == lines[..b] && f.journal == Frame(lines) + [];
      ReadPersistedBatch(f, lines, [], a, b, limit, budget, c.decode, c.First());
    } else if a < |lines| && !Within(budget, c.First() + a, [lines[a]]) {
      b' := a;
      FreshOverBudget(f, lines, a, limit, budget, c.decode, c.First());
    } else {
      var count := ReadFreshBatch(f, lines, a, limit, budget, c.decode, c.First());
      b' := a + count;
      CountIsPositive(lines, a, limit, budget, c.First(), count);
    }
  }

  lemma OpenJournal(c: Setup, s: State, a: nat, b: nat, r: nat)
    requires Inv(c, s, a, b, r) && s.client.Open?
    ensures a <= b <= |Journal(s)| && s.files.journal == Frame(Journal(s)) && Journal(s) == Lines(s.files.journal)
    ensures Numbered(Journal(s), c.First(), c.decode) && AllNewlineFree(Journal(s)) && NewlineFree([])
    ensures s.files.AckOffset() == Offset(Journal(s), a)
    ensures a == b ==> s.files.LiveDelivery().None?
    ensures a < b ==>
              && s.files.delivery == Some(WindowOf(Journal(s), a, b, Some(c.budget), c.First()))
              && b - a <= MAX_BATCH_POINTS && Within(Some(c.budget), c.First() + a, Journal(s)[a..b])
  {
    JournalSplits(s.files.journal);
    hide Frame, Lines, Tail, Offset, NetworkOk, ServerOk, ClientOk, Within, WindowOf;
  }

  lemma CountIsPositive(lines: seq<Line>, a: nat, limit: nat, budget: Option<nat>, first: nat, count: nat)
    requires a <= |lines| && limit > 0 && LongestWithin(lines[a..], [], limit, budget, first + a, count)
    requires a < |lines| ==> Within(budget, first + a, [lines[a]])
    ensures count <= limit && count <= |lines| - a && (count == 0 ==> a == |lines|)
    ensures count > 0 ==> Within(budget, first + a, lines[a..a + count])
    ensures lines[a..a] == []
  {
    if a < |lines| {
      assert [] + lines[a..][..1] == [lines[a]];
    }
    assert [] + lines[a..][..count] == lines[a..a + count];
  }

  lemma WindowIsValid(c: Setup, lines: seq<Line>, a: nat, b: nat)
    requires Numbered(lines, c.First(), c.decode) && a < b <= |lines| && b - a <= MAX_BATCH_POINTS
    ensures ValidBatch(lines[a..b], c.decode)
    ensures FirstSequence(lines[a..b], c.decode) == c.First() + a && c.decode(lines[a..b][0]) == Some(c.First() + a)
  {
    forall i | 0 <= i < b - a
      ensures c.decode(lines[a..b][i]) == Some(c.First() + a + i)
    {
      assert lines[a..b][i] == lines[a + i];
    }
  }

  lemma WindowPersisted(c: Setup, s: State, t: State, a: nat, b: nat, b': nat, r: nat)
    requires Inv(c, s, a, b, r) && a <= b' <= |Journal(s)| && b' - a <= MAX_BATCH_POINTS && (a < b ==> b' == b)
    requires a < b' ==> Within(Some(c.budget), c.First() + a, Journal(s)[a..b'])
    requires t.files == s.files.(delivery :=
               if a < b' then Some(WindowOf(Journal(s), a, b', Some(c.budget), c.First())) else None)
    requires t.server == s.server && t.requests == s.requests && t.replies == s.replies
    requires t.client.Open? && s.client.Open? && t.client.nextSequence == s.client.nextSequence
    requires t.client.outgoing.Some? ==>
               a < b' && t.client.outgoing.value
                 == Outgoing(Window(c, Journal(s), a, b'), Offset(Journal(s), b'), Selected)
    ensures Inv(c, t, a, b', r)
  {
    hide Lines, Tail, CompleteLength, Offset, Numbered, Within, ValidBatch, Registered;
    OffsetInjective(Journal(s), a, b');
  }

  lemma SelectKeeps(c: Setup, s: State, limit: nat, a: nat, b: nat, r: nat) returns (b': nat)
    requires Inv(c, s, a, b, r)
    ensures a <= b' && (a < b ==> b' == b) && Inv(c, ApplySelect(c, s, limit), a, b', r)
    ensures a < b' <= |Journal(s)| ==> Within(Some(c.budget), c.First() + a, Journal(s)[a..b'])
  {
    hide Lines, Tail, CompleteLength, Offset, Numbered, Within, ValidBatch, Registered, FirstSequence, ReadBatch;
    hide NetworkOk, ServerOk, ClientOk, WindowOf;
    b' := b;
    if s.client.Open? && s.client.outgoing.None? && 1 <= limit <= MAX_BATCH_POINTS {
      b' := SelectionOutcome(c, s, limit, a, b, r);
      if a < b' { WindowIsValid(c, Journal(s), a, b'); }
      WindowPersisted(c, s, ApplySelect(c, s, limit), a, b, b', r);
    }
  }

  /** Digest conflicts, sequence gaps and invalid batches are unreachable replies. */
  lemma ServeOutcome(c: Setup, s: State, q: Request, a: nat, b: nat, r: nat)
    requires Inv(c, s, a, b, r) && q in s.requests
    ensures Registered(s.server, q) ==> Handle(s.server, q, c.decode) == (s.server, Duplicate)
    ensures !Registered(s.server, q) ==>
              && a == r < b && q == Window(c, Journal(s), a, b) && q.batchSequence !in s.server.batches
              && Handle(s.server, q, c.decode)
                 == if s.server.running then
                      (s.server.(log := s.server.log + q.points, batches := s.server.batches[q.batchSequence := q]),
                       Accepted)
                    else (s.server, RunFinished)
  {
    hide Numbered, Lines, Offset, WindowOk, ClientOk, Within, ValidBatch, NextSequence;
    ServerNext(c, s, a, b, r);
    if !Registered(s.server, q) {
      assert WindowOk(c, s.files, a, b);
      WindowBounds(c, s, a, b);
      WindowIsValid(c, Journal(s), a, b);
    }
  }

  lemma WindowBounds(c: Setup, s: State, a: nat, b: nat)
    requires WindowOk(c, s.files, a, b) && a < b
    ensures b <= |Journal(s)| && b - a <= MAX_BATCH_POINTS
  {
  }

  /** The transaction that accepts the persisted window extends the log by exactly it. */
  lemma WindowRegistered(c: Setup, s: State, t: State, a: nat, b: nat)
    requires Inv(c, s, a, b, a) && a < b
    requires var q := Window(c, Journal(s), a, b);
             && q.batchSequence !in s.server.batches
             && t == s.(server := s.server.(log := s.server.log + q.points,
                                            batches := s.server.batches[q.batchSequence := q]),
                        replies := s.replies + {q})
    ensures Inv(c, t, a, b, b)
  {
    hide Lines, Tail, CompleteLength, Offset, Numbered, Within, ValidBatch, WindowOk, JournalOk;
    WindowBounds(c, s, a, b);
    assert c.base + Journal(s)[..a] + Journal(s)[a..b] == c.base + Journal(s)[..b];
    assert JournalOk(c, t) by { JournalOkKept(c, s, t); }
    assert WindowOk(c, t.files, a, b);
    assert forall q :: Registered(s.server, q) ==> Registered(t.server, q);
  }

  lemma JournalOkKept(c: Setup, s: State, t: State)
    requires JournalOk(c, s) && t.files == s.files && t.client == s.client
    ensures JournalOk(c, t)
  {
  }

  lemma ServeKeeps(c: Setup, s: State, q: Request, a: nat, b: nat, r: nat) returns (r': nat)
    requires Inv(c, s, a, b, r)
    ensures r <= r' && Inv(c, ApplyServe(c, s, q), a, b, r') && (a == b ==> r' == r)
  {
    hide Handle, Lines, Tail, CompleteLength, Offset, Numbered, Within, ValidBatch, WindowOk, ClientOk;
    r' := r;
    if q in s.requests {
      ServeOutcome(c, s, q, a, b, r);
      if !Registered(s.server, q) && s.server.running {
        r' := b;
        WindowRegistered(c, s, ApplyServe(c, s, q), a, b);
      } else {
        ServerKept(c, s, ApplyServe(c, s, q), a, b, r);
      }
    }
  }

  /** Steps that touch neither the files nor the server's log and batches. */
  lemma ServerKept(c: Setup, s: State, t: State, a: nat, b: nat, r: nat)
    requires Inv(c, s, a, b, r) && t.files == s.files
    requires t.server == s.server || t.server == s.server.(running := t.server.running)
    requires t.requests == s.requests && (forall q :: q in t.replies ==> q in s.replies || Registered(s.server, q))
    requires t.client == s.client || t.client == Closed || (s.client.Open? && t.client == s.client.(outgoing := None))
    ensures Inv(c, t, a, b, r)
  {
    hide Lines, Tail, CompleteLength, Offset, Numbered, Within, ValidBatch, WindowOk;
    assert WindowOk(c, t.files, a, b);
  }

  lemma SendKeeps(c: Setup, s: State, a: nat, b: nat, r: nat)
    requires Inv(c, s, a, b, r)
    ensures Inv(c, ApplySend(s), a, b, r)
  {
    if InPhase(s, Selected) {
      WindowBounds(c, s, a, b);
      WindowIsValid(c, Journal(s), a, b);
      var t := ApplySend(s);
      hide Lines, Tail, CompleteLength, Offset, Numbered, Within, ValidBatch, WindowOk, Registered;
      assert WindowOk(c, t.files, a, b);
    }
  }

  lemma ReceiveKeeps(c: Setup, s: State, a: nat, b: nat, r: nat)
    requires Inv(c, s, a, b, r)
    ensures Inv(c, ApplyReceive(s), a, b, r)
  {
    hide Lines, Tail, CompleteLength, Offset, Numbered, Within, ValidBatch, WindowOk, Registered;
    var t := ApplyReceive(s);
    assert WindowOk(c, t.files, a, b);
  }

  /** A success reply for the window means that the server holds it. */
  lemma AnsweredIsRegistered(c: Setup, s: State, a: nat, b: nat, r: nat)
    requires Inv(c, s, a, b, r) && InPhase(s, Answered)
    ensures a < b == r <= |Journal(s)| && s.client.outgoing.value.end == Offset(Journal(s), b)
    ensures Registered(s.server, Window(c, Journal(s), a, b))
    ensures Acknowledged(s.files, s.client.outgoing.value.end).1.None?
    ensures s.files.delivery == Some(WindowOf(Journal(s), a, b, Some(c.budget), c.First()))
  {
    hide Lines, Tail, CompleteLength, Offset, Numbered, Within, ValidBatch;
  }

  /** Acknowledging an answered window never fails and is the ack write followed by the unlink. */
  lemma AcknowledgeIsBothSteps(c: Setup, s: State, a: nat, b: nat, r: nat)
    requires Inv(c, s, a, b, r) && InPhase(s, Answered)
    ensures var t := ApplyUnlink(ApplyWriteAck(s));
            && Acknowledged(s.files, s.client.outgoing.value.end) == (t.files, None)
            && t == s.(files := s.files.(ack := Some(Offset(Journal(s), b)), delivery := None),
                       client := s.client.(outgoing := None))
  {
    AnsweredIsRegistered(c, s, a, b, r);
    hide Inv, Window, WindowOf, Offset, Journal;
  }

  /** An acknowledgement moves the ack to the end of the delivered window, never elsewhere. */
  lemma WriteAckKeeps(c: Setup, s: State, a: nat, b: nat, r: nat) returns (a': nat)
    requires Inv(c, s, a, b, r)
    ensures a <= a' <= b && Inv(c, ApplyWriteAck(s), a', b, r)
  {
    hide Lines, Tail, CompleteLength, Offset, Numbered, Within, ValidBatch, Registered, Window, WindowOf;
    a' := a;
    if InPhase(s, Answered) {
      AnsweredIsRegistered(c, s, a, b, r);
      a' := b;
      WindowAcknowledged(c, s, ApplyWriteAck(s), a, b);
    }
  }

  lemma WindowAcknowledged(c: Setup, s: State, t: State, a: nat, b: nat)
    requires Inv(c, s, a, b, b) && a < b <= |Journal(s)|
    requires Registered(s.server, Window(c, Journal(s), a, b))
    requires t.files == s.files.(ack := Some(Offset(Journal(s), b)))
    requires t.server == s.server && t.requests == s.requests && t.replies == s.replies
    requires t.client.Open? && s.client.Open? && t.client.nextSequence == s.client.nextSequence
    requires t.client.outgoing.Some? ==>
               t.client.outgoing.value.phase == Acked && t.client.outgoing.value.end == Offset(Journal(s), b)
    ensures Inv(c, t, b, b, b)
  {
    hide Lines, Tail, CompleteLength, Offset, Numbered, Within, ValidBatch;
    assert WindowOk(c, s.files, a, b);
  }

  lemma UnlinkKeeps(c: Setup, s: State, a: nat, b: nat, r: nat)
    requires Inv(c, s, a, b, r)
    ensures Inv(c, ApplyUnlink(s), a, b, r)
  {
    hide Lines, Tail, CompleteLength, Offset, Numbered, Within, ValidBatch, Registered, Window, WindowOf;
  }

  lemma CheckpointKeeps(c: Setup, s: State, a: nat, b: nat, r: nat)
    requires Inv(c, s, a, b, r) && s.client.Open?
    ensures Inv(c, s.(files := s.files.(checkpoint := |s.files.journal|)), a, b, r)
  {
    hide Lines, Offset, Numbered, Within, ValidBatch, Registered, Window, WindowOf;
  }

  // ---------------------------------------------------------- whole runs

  /**
    A client of a run that the server already knows must ask the server for its
    position until its own journal has a record to continue from.
   */
  ghost predicate Informed(c: Setup, s: State, step: Step) {
    step.OpenSpool? ==> c.First() == 1 || step.online || Journal(s) != []
  }

  ghost predicate AllInformed(c: Setup, s: State, steps: seq<Step>)
    decreases |steps|
  {
    steps == [] ||
    (AllInformed(c, s, steps[..|steps| - 1])
     && Informed(c, Run(c, s, steps[..|steps| - 1]), steps[|steps| - 1]))
  }

  lemma StepKeeps(c: Setup, s: State, step: Step, a: nat, b: nat, r: nat) returns (a': nat, b': nat, r': nat)
    requires Inv(c, s, a, b, r) && Informed(c, s, step)
    ensures Inv(c, Apply(c, s, step), a', b', r')
    ensures a <= a' && r <= r' && (a' == a || a' <= b)
  {
    hide Inv, ApplyOpen, ApplyAppend, ApplyTornAppend, ApplySelect, ApplySend, ApplyServe, ApplyReceive,
         ApplyWriteAck, ApplyUnlink;
    a', b', r' := a, b, r;
    match step {
      case OpenSpool(online) => OpenKeeps(c, s, online, a, b, r);
      case Append(line) => AppendKeeps(c, s, line, a, b, r);
      case TornAppend(line, written) => TornAppendKeeps(c, s, line, written, a, b, r);
      case SelectBatch(limit) => b' := SelectKeeps(c, s, limit, a, b, r);
      case Send => SendKeeps(c, s, a, b, r);
      case Serve(q) => r' := ServeKeeps(c, s, q, a, b, r);
      case Receive => ReceiveKeeps(c, s, a, b, r);
      case WriteAck => a' := WriteAckKeeps(c, s, a, b, r);
      case UnlinkDelivery => UnlinkKeeps(c, s, a, b, r);
      case Checkpoint => if s.client.Open? { CheckpointKeeps(c, s, a, b, r); }
      case Crash => ServerKept(c, s, Apply(c, s, step), a, b, r);
      case GiveUp => ServerKept(c, s, Apply(c, s, step), a, b, r);
      case FinishRun => ServerKept(c, s, Apply(c, s, step), a, b, r);
    }
  }

  lemma {:induction false} RunKeeps(c: Setup, s: State, steps: seq<Step>) returns (a: nat, b: nat, r: nat)
    requires Initial(c, s) && AllInformed(c, s, steps)
    ensures Inv(c, Run(c, s, steps), a, b, r)
    decreases |steps|
  {
    if steps == [] {
      InitialInv(c, s);
      return 0, 0, 0;
    }
    var before := steps[..|steps| - 1];
    a, b, r := RunKeeps(c, s, before);
    a, b, r := StepKeeps(c, Run(c, s, before), steps[|steps| - 1], a, b, r);
  }
}

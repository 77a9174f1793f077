/** What the delivery protocol guarantees over whole runs. */
module DeliveryTheorems {
  import opened Wrappers
  import opened Framing
  import opened Requests
  import opened Spool
  import opened SpoolLaws
  import opened ExactlyOnce

  /**
    Exactly once: in every reachable state the server's log is what it held before,
    followed by a record prefix of the journal that ends at the acknowledged offset
    or at the end of the persisted delivery.
   */
  lemma ExactlyOncePrefix(c: Setup, s: State, steps: seq<Step>) returns (r: nat)
    requires Initial(c, s) && AllInformed(c, s, steps)
    ensures var t := Run(c, s, steps);
            && r <= |Journal(t)| && t.server.log == c.base + Journal(t)[..r]
            && (forall k :: 0 <= k < |Journal(t)| ==> c.decode(Journal(t)[k]) == Some(c.First() + k))
            && (Offset(Journal(t), r) == t.files.AckOffset()
                || (t.files.LiveDelivery().Some? && Offset(Journal(t), r) == t.files.LiveDelivery().value.end))
  {
    hide *;
    var a, b;
    a, b, r := RunKeeps(c, s, steps);
    PrefixOf(c, Run(c, s, steps), a, b, r);
  }

  lemma PrefixOf(c: Setup, t: State, a: nat, b: nat, r: nat)
    requires Inv(c, t, a, b, r)
    ensures r <= |Journal(t)| && t.server.log == c.base + Journal(t)[..r]
    ensures forall k :: 0 <= k < |Journal(t)| ==> c.decode(Journal(t)[k]) == Some(c.First() + k)
    ensures Offset(Journal(t), r) == t.files.AckOffset()
            || (t.files.LiveDelivery().Some? && Offset(Journal(t), r) == t.files.LiveDelivery().value.end)
  {
    hide Lines, Tail, CompleteLength, Offset, Within, ValidBatch, Registered, Window;
    OffsetInjective(Journal(t), a, b);
  }

  /** In every reachable state no request can meet a conflict or a gap, and no spool operation fails. */
  lemma NothingConflicts(c: Setup, s: State, steps: seq<Step>, q: Request, limit: nat)
    requires Initial(c, s) && AllInformed(c, s, steps) && 1 <= limit <= MAX_BATCH_POINTS
    ensures var t := Run(c, s, steps);
            && (q in t.requests && t.server.running ==> Handle(t.server, q, c.decode).1 in {Accepted, Duplicate})
            && (q in t.requests && !t.server.running ==> Handle(t.server, q, c.decode).1 in {Duplicate, RunFinished})
            && RecoveryFault(t.files).None?
            && (InPhase(t, Answered) ==> Acknowledged(t.files, t.client.outgoing.value.end).1.None?)
            && (t.client.Open? ==> var batch := ReadBatch(t.files, limit, Some(c.budget), c.decode).1;
                                   batch.Ok? || batch.error == OverBudget)
  {
    var t := Run(c, s, steps);
    var a, b, r := RunKeeps(c, s, steps);
    hide Lines, Tail, CompleteLength, Offset, Within, ValidBatch, Window, Run, AllInformed, Handle, ReadBatch, Numbered;
    hide NetworkOk, ServerOk, ClientOk, WindowOf, Acknowledged;
    assert RecoveryFault(t.files).None? by { RecoveryKeeps(c, t.files, a, b); }
    if q in t.requests { ServeOutcome(c, t, q, a, b, r); }
    if InPhase(t, Answered) { AnsweredIsRegistered(c, t, a, b, r); }
    if t.client.Open? { var b' := SelectionOutcome(c, t, limit, a, b, r); }
  }

  lemma ResumeFrom(c: Setup, t: State, online: bool, a: nat, b: nat, r: nat)
    requires Inv(c, t, a, b, r) && t.client.Closed? && (online ==> t.server.running)
             && Informed(c, t, OpenSpool(online))
    ensures var u := ApplyOpen(c, t, online);
            u.client == Open(c.First() + |Journal(t)|, None) && Journal(u) == Journal(t) && u.server == t.server
  {
    ResumePosition(c, t, online, a, b, r);
    RecoveryKeepsCompleteRecords(t.files);
    hide ApplyOpen, Inv, AfterRecovery, Lines;
  }

  /** Reopening continues exactly after the last complete record, whichever side knows more. */
  lemma ResumeNeverSkips(c: Setup, s: State, steps: seq<Step>, online: bool)
    requires Initial(c, s) && AllInformed(c, s, steps)
    requires Run(c, s, steps).client.Closed? && (online ==> Run(c, s, steps).server.running)
    requires Informed(c, Run(c, s, steps), OpenSpool(online))
    ensures var t := Run(c, s, steps);
            var u := ApplyOpen(c, t, online);
            u.client == Open(c.First() + |Journal(t)|, None) && Journal(u) == Journal(t)
  {
    hide *;
    var a, b, r := RunKeeps(c, s, steps);
    ResumeFrom(c, Run(c, s, steps), online, a, b, r);
  }

  // ---------------------------------------------------------- durability

  /** No step ever drops or rewrites a complete record or a registered point. */
  lemma StepIsDurable(c: Setup, s: State, step: Step, a: nat, b: nat, r: nat)
    requires Inv(c, s, a, b, r)
    ensures Journal(s) <= Journal(Apply(c, s, step)) && s.server.log <= Apply(c, s, step).server.log
    ensures Journal(Apply(c, s, step)) != Journal(s) ==>
              step.Append? && Journal(Apply(c, s, step)) == Journal(s) + [step.line]
  {
    hide Lines, Tail, CompleteLength, Offset, Within, ValidBatch, Window, Numbered, NetworkOk, ServerOk, ClientOk,
         WindowOk;
    match step {
      case OpenSpool(online) => RecoveryKeepsCompleteRecords(s.files);
      case Append(line) => if Appendable(c, s, line) { AppendJournal(s.files.journal, line, []); }
      case TornAppend(line, written) =>
        if Appendable(c, s, line) && written <= |line| { AppendJournal(s.files.journal, line, line[..written]); }
      case SelectBatch(limit) => SelectKeepsJournal(c, s, limit);
      case Crash =>
      case Send =>
      case Serve(q) =>
      case Receive =>
      case GiveUp =>
      case WriteAck =>
      case UnlinkDelivery =>
      case Checkpoint =>
      case FinishRun =>
    }
  }

  lemma SelectKeepsJournal(c: Setup, s: State, limit: nat)
    ensures ApplySelect(c, s, limit).files.journal == s.files.journal
    ensures ApplySelect(c, s, limit).server == s.server
  {
    hide Lines, Tail, CompleteLength, Select;
  }

  lemma {:induction false} RunIsDurable(c: Setup, s: State, steps: seq<Step>, k: nat)
    requires Initial(c, s) && AllInformed(c, s, steps) && k <= |steps|
    ensures Journal(Run(c, s, steps[..k])) <= Journal(Run(c, s, steps))
    ensures Run(c, s, steps[..k]).server.log <= Run(c, s, steps).server.log
    decreases |steps|
  {
    if k == |steps| {
      assert steps[..k] == steps;
    } else {
      var before := steps[..|steps| - 1];
      assert before[..k] == steps[..k];
      RunIsDurable(c, s, before, k);
      var a, b, r := RunKeeps(c, s, before);
      StepIsDurable(c, Run(c, s, before), steps[|steps| - 1], a, b, r);
    }
  }

  // ------------------------------------------------------------- draining

  lemma {:induction false} RunConcat(c: Setup, s: State, x: seq<Step>, y: seq<Step>)
    ensures Run(c, s, x + y) == Run(c, Run(c, s, x), y)
    decreases |y|
  {
    if y == [] {
      assert x + y == x;
    } else {
      var y' := y[..|y| - 1];
      RunConcat(c, s, x, y');
      assert (x + y)[..|x + y| - 1] == x + y';
    }
  }

  ghost predicate Idle(s: State) {
    s.client.Open? && s.client.outgoing.None? && s.server.running
  }

  ghost predicate AllFit(c: Setup, lines: seq<Line>) {
    forall k :: 0 <= k < |lines| ==> Within(Some(c.budget), c.First() + k, [lines[k]])
  }

  lemma SendAndServe(c: Setup, s: State, a: nat, b: nat, r: nat) returns (t: State)
    requires Inv(c, s, a, b, r) && a < b && InPhase(s, Selected) && s.server.running
    ensures t == ApplyReceive(ApplyServe(c, ApplySend(s), s.client.outgoing.value.request))
    ensures Inv(c, t, a, b, b) && InPhase(t, Answered) && t.server.running && Journal(t) == Journal(s)
    ensures t.client.outgoing.value.end == Offset(Journal(s), b)
  {
    var q := s.client.outgoing.value.request;
    var u := ApplySend(s);
    SendKeeps(c, s, a, b, r);
    ServeOutcome(c, u, q, a, b, r);
    var v := ApplyServe(c, u, q);
    var r' := ServeKeeps(c, u, q, a, b, r);
    t := ApplyReceive(v);
    ReceiveKeeps(c, v, a, b, r');
    hide Handle, Inv, Lines, Offset, Window, Within, Run;
    assert InPhase(t, Answered);
    AnsweredIsRegistered(c, t, a, b, r');
  }

  function RoundOf(q: Request): seq<Step> {
    [SelectBatch(MAX_BATCH_POINTS), Send, Serve(q), Receive, WriteAck, UnlinkDelivery]
  }

  lemma RoundUnfolds(c: Setup, s: State, q: Request)
    ensures Run(c, s, RoundOf(q))
            == var sent := ApplySend(ApplySelect(c, s, MAX_BATCH_POINTS));
               ApplyUnlink(ApplyWriteAck(ApplyReceive(ApplyServe(c, sent, q))))
  {
    hide ApplyUnlink, ApplyWriteAck, ApplyReceive, ApplyServe, ApplySend, ApplySelect;
    var p := RoundOf(q);
    assert p[..5][..4][..3][..2][..1][..0] == [];
    assert Run(c, s, p[..1]) == ApplySelect(c, s, MAX_BATCH_POINTS) by { assert p[..1][..0] == []; }
    assert p[..2][..1] == p[..1] && p[..3][..2] == p[..2] && p[..4][..3] == p[..3] && p[..5][..4] == p[..4];
    assert Run(c, s, p[..2]) == ApplySend(Run(c, s, p[..1]));
    assert Run(c, s, p[..3]) == ApplyServe(c, Run(c, s, p[..2]), q);
    assert Run(c, s, p[..4]) == ApplyReceive(Run(c, s, p[..3]));
    assert Run(c, s, p[..5]) == ApplyWriteAck(Run(c, s, p[..4]));
  }

  /** One undisturbed round trip delivers and acknowledges at least one record. */
  lemma Round(c: Setup, s: State, a: nat, b: nat, r: nat) returns (q: Request, b': nat)
    requires Inv(c, s, a, b, r) && Idle(s) && a < |Journal(s)|
    requires Within(Some(c.budget), c.First() + a, [Journal(s)[a]])
    ensures var t := Run(c, s, RoundOf(q));
            Inv(c, t, b', b', b') && a < b' && Idle(t) && Journal(t) == Journal(s)
  {
    b' := SelectKeeps(c, s, MAX_BATCH_POINTS, a, b, r);
    var s1 := ApplySelect(c, s, MAX_BATCH_POINTS);
    SelectKeepsJournal(c, s, MAX_BATCH_POINTS);
    SelectionStarts(c, s, a, b, b', r);
    q := s1.client.outgoing.value.request;
    hide ApplySelect, ApplyServe, Lines, Offset, Within, Window;
    var s4 := SendAndServe(c, s1, a, b', r);
    var a' := WriteAckKeeps(c, s4, a, b', b');
    var s5 := ApplyWriteAck(s4);
    AnsweredIsRegistered(c, s4, a, b', b');
    AckedAt(c, s5, a', b', b');
    UnlinkKeeps(c, s5, b', b', b');
    RoundUnfolds(c, s, q);
    hide Inv;
  }

  lemma AckedAt(c: Setup, s: State, a: nat, b: nat, r: nat)
    requires Inv(c, s, a, b, r) && InPhase(s, Acked)
    ensures a == b
  {
  }

  lemma SelectionStarts(c: Setup, s: State, a: nat, b: nat, b': nat, r: nat)
    requires Inv(c, s, a, b, r) && Idle(s) && a < |Journal(s)|
    requires Within(Some(c.budget), c.First() + a, [Journal(s)[a]])
    requires Inv(c, ApplySelect(c, s, MAX_BATCH_POINTS), a, b', r)
    ensures a < b' && InPhase(ApplySelect(c, s, MAX_BATCH_POINTS), Selected)
    ensures ApplySelect(c, s, MAX_BATCH_POINTS).server == s.server
  {
    hide JournalOk, WindowOk, ServerOk, NetworkOk, ReadBatch, Lines, Offset, Within, Window, Tail, CompleteLength,
         Numbered, WindowOf;
    var n := SelectionOutcome(c, s, MAX_BATCH_POINTS, a, b, r);
    var t := ApplySelect(c, s, MAX_BATCH_POINTS);
    assert t.client.outgoing.Some?;
    BoundsOf(c, t, a, b', r);
  }

  /** Steps that every client may take: it asks the server whenever it opens the spool. */
  predicate AlwaysAsks(steps: seq<Step>) {
    forall i :: 0 <= i < |steps| && steps[i].OpenSpool? ==> steps[i].online
  }

  /** From any state in which no batch is being sent, any records that all fit can still be delivered. */
  lemma {:induction false} DrainFromIdle(c: Setup, s: State, n: nat, a: nat, b: nat, r: nat)
    returns (steps: seq<Step>, a': nat, b': nat, r': nat)
    requires Inv(c, s, a, b, r) && Idle(s) && n <= |Journal(s)| && AllFit(c, Journal(s)[..n])
    ensures var t := Run(c, s, steps); Inv(c, t, a', b', r') && n <= a' && Journal(t) == Journal(s)
    ensures AlwaysAsks(steps)
    decreases |Journal(s)| - a
  {
    hide *;
    if n <= a {
      steps, a', b', r' := [], a, b, r;
      NoSteps(c, s);
    } else {
      BoundsOf(c, s, a, b, r);
      FitsAt(c, Journal(s), n, a);
      var q, end := Round(c, s, a, b, r);
      var t := Run(c, s, RoundOf(q));
      BoundsOf(c, t, end, end, end);
      var rest;
      rest, a', b', r' := DrainFromIdle(c, t, n, end, end, end);
      steps := RoundOf(q) + rest;
      RunConcat(c, s, RoundOf(q), rest);
      RoundAsks(q, rest);
    }
  }

  lemma RoundAsks(q: Request, rest: seq<Step>)
    requires AlwaysAsks(rest)
    ensures AlwaysAsks(RoundOf(q) + rest)
  {
  }

  lemma BoundsOf(c: Setup, s: State, a: nat, b: nat, r: nat)
    requires Inv(c, s, a, b, r)
    ensures a <= b <= |Journal(s)| && a <= r <= b
    ensures s.server.log == c.base + Journal(s)[..r] && s.files.AckOffset() == Offset(Journal(s), a)
    ensures a < b ==> Within(Some(c.budget), c.First() + a, Journal(s)[a..b])
  {
  }

  function Reopen(): seq<Step> {
    [Crash, OpenSpool(true)]
  }

  lemma ReopenUnfolds(c: Setup, s: State)
    ensures Run(c, s, Reopen()) == ApplyOpen(c, s.(client := Closed), true)
  {
    hide ApplyOpen;
    assert Reopen()[..1] == [Crash] && [Crash][..0] == [];
    assert Run(c, s, [Crash]) == s.(client := Closed);
  }

  lemma ReopenIsIdle(c: Setup, s: State, a: nat, b: nat, r: nat)
    requires Inv(c, s, a, b, r) && s.server.running
    ensures Inv(c, Run(c, s, Reopen()), a, b, r) && Idle(Run(c, s, Reopen()))
    ensures Journal(Run(c, s, Reopen())) == Journal(s)
  {
    hide Inv, ApplyOpen, Lines, Run;
    var t := s.(client := Closed);
    ServerKept(c, s, t, a, b, r);
    ReopenUnfolds(c, s);
    OpenKeeps(c, t, true, a, b, r);
    ResumeFrom(c, t, true, a, b, r);
  }

  /** Interrupted work is never stuck: some continuation of a running run delivers any records that all fit. */
  lemma Drain(c: Setup, s: State, n: nat, a: nat, b: nat, r: nat) returns (more: seq<Step>, a': nat, b': nat, r': nat)
    requires Inv(c, s, a, b, r) && s.server.running && n <= |Journal(s)| && AllFit(c, Journal(s)[..n])
    ensures var t := Run(c, s, more); Inv(c, t, a', b', r') && n <= a' && Journal(t) == Journal(s)
    ensures AlwaysAsks(more)
  {
    hide *;
    ReopenIsIdle(c, s, a, b, r);
    var rest;
    rest, a', b', r' := DrainFromIdle(c, Run(c, s, Reopen()), n, a, b, r);
    more := Reopen() + rest;
    RunConcat(c, s, Reopen(), rest);
    ReopenAsks(rest);
  }

  lemma ReopenAsks(rest: seq<Step>)
    requires AlwaysAsks(rest)
    ensures AlwaysAsks(Reopen() + rest)
  {
  }

  lemma {:induction false} AskingIsInformed(c: Setup, s: State, steps: seq<Step>)
    requires AlwaysAsks(steps)
    ensures AllInformed(c, s, steps)
    decreases |steps|
  {
    if steps != [] { AskingIsInformed(c, s, steps[..|steps| - 1]); }
  }

  lemma {:induction false} InformedConcat(c: Setup, s: State, x: seq<Step>, y: seq<Step>)
    requires AllInformed(c, s, x) && AllInformed(c, Run(c, s, x), y)
    ensures AllInformed(c, s, x + y)
    decreases |y|
  {
    hide Informed, Run;
    if y == [] {
      assert x + y == x;
    } else {
      var y' := y[..|y| - 1];
      InformedConcat(c, s, x, y');
      RunConcat(c, s, x, y');
      assert (x + y)[..|x + y| - 1] == x + y';
    }
  }

  /** From every reachable state of a running run some continuation delivers every record, if each fits a request. */
  lemma EveryRecordCanBeDelivered(c: Setup, s: State, steps: seq<Step>) returns (more: seq<Step>)
    requires Initial(c, s) && AllInformed(c, s, steps)
    requires Run(c, s, steps).server.running && AllFit(c, Journal(Run(c, s, steps)))
    ensures AllInformed(c, s, steps + more)
    ensures var t := Run(c, s, steps + more);
            && Journal(t) == Journal(Run(c, s, steps))
            && t.server.log == c.base + Journal(t)
            && t.files.AckOffset() == |Frame(Journal(t))|
  {
    hide *;
    var t := Run(c, s, steps);
    var a, b, r := RunKeeps(c, s, steps);
    assert Journal(t)[..|Journal(t)|] == Journal(t);
    var a', b', r';
    more, a', b', r' := Drain(c, t, |Journal(t)|, a, b, r);
    AskingIsInformed(c, t, more);
    InformedConcat(c, s, steps, more);
    RunConcat(c, s, steps, more);
    DrainedState(c, Run(c, t, more), a', b', r');
  }

  lemma DrainedState(c: Setup, s: State, a: nat, b: nat, r: nat)
    requires Inv(c, s, a, b, r) && |Journal(s)| <= a
    ensures s.server.log == c.base + Journal(s) && s.files.AckOffset() == |Frame(Journal(s))|
  {
    BoundsOf(c, s, a, b, r);
    assert Journal(s)[..r] == Journal(s);
    OffsetEnds(Journal(s));
  }

  // ------------------------------------------------- records that are too large

  /** Only records that fit a request of their own ever get into a delivery window. */
  lemma WindowsFit(c: Setup, s: State, step: Step, a: nat, b: nat, r: nat, a': nat, b': nat, r': nat)
    requires Inv(c, s, a, b, r) && b <= |Journal(s)| && AllFit(c, Journal(s)[..b])
    requires Inv(c, Apply(c, s, step), a', b', r') && (a' == a || a' <= b)
    ensures b' <= |Journal(Apply(c, s, step))| && AllFit(c, Journal(Apply(c, s, step))[..b'])
  {
    hide *;
    var t := Apply(c, s, step);
    BoundsOf(c, s, a, b, r);
    BoundsOf(c, t, a', b', r');
    StepIsDurable(c, s, step, a, b, r);
    FitsUpTo(c, Journal(s), Journal(t), a', b, b');
  }

  /** The records before the window fitted already, those of the window fit with it. */
  lemma FitsUpTo(c: Setup, lines: seq<Line>, longer: seq<Line>, a: nat, b: nat, end: nat)
    requires a <= b <= |lines| && a <= end <= |longer| && lines <= longer && AllFit(c, lines[..b])
    requires a < end ==> Within(Some(c.budget), c.First() + a, longer[a..end])
    ensures AllFit(c, longer[..end])
  {
    hide RequestSize, Setup.First;
    forall k | 0 <= k < end
      ensures Within(Some(c.budget), c.First() + k, [longer[..end][k]])
    {
      if k < a {
        assert lines[..b][k] == longer[k];
      } else {
        EachFits(c.First() + a, longer[a..end], k - a);
        assert longer[a..end][k - a] == longer[k];
      }
    }
  }

  lemma FitsAt(c: Setup, lines: seq<Line>, b: nat, k: nat)
    requires k < b <= |lines| && AllFit(c, lines[..b])
    ensures Within(Some(c.budget), c.First() + k, [lines[k]])
  {
    hide Within;
    assert lines[..b][k] == lines[k];
  }

  lemma {:induction false} RunFits(c: Setup, s: State, steps: seq<Step>) returns (a: nat, b: nat, r: nat)
    requires Initial(c, s) && AllInformed(c, s, steps)
    ensures Inv(c, Run(c, s, steps), a, b, r)
    ensures b <= |Journal(Run(c, s, steps))| && AllFit(c, Journal(Run(c, s, steps))[..b])
    decreases |steps|
  {
    hide Inv, AllFit, Lines, Apply, Informed;
    if steps == [] {
      InitialInv(c, s);
      BoundsOf(c, s, 0, 0, 0);
      NothingToFit(c, Journal(s));
      return 0, 0, 0;
    }
    var before := steps[..|steps| - 1];
    var a0, b0, r0 := RunFits(c, s, before);
    a, b, r := StepKeeps(c, Run(c, s, before), steps[|steps| - 1], a0, b0, r0);
    WindowsFit(c, Run(c, s, before), steps[|steps| - 1], a0, b0, r0, a, b, r);
  }

  lemma NothingToFit(c: Setup, lines: seq<Line>)
    ensures AllFit(c, lines[..0])
  {
  }

  /** A record too large for a request of its own stops delivery before it for good. */
  lemma OversizedRecordStops(c: Setup, s: State, steps: seq<Step>, k: nat) returns (r: nat)
    requires Initial(c, s) && AllInformed(c, s, steps)
    requires var lines := Journal(Run(c, s, steps)); k < |lines| && !Within(Some(c.budget), c.First() + k, [lines[k]])
    ensures var t := Run(c, s, steps);
            r <= k && t.server.log == c.base + Journal(t)[..r] && t.files.AckOffset() <= Offset(Journal(t), k)
  {
    hide *;
    var a, b;
    a, b, r := RunFits(c, s, steps);
    var t := Run(c, s, steps);
    BoundsOf(c, t, a, b, r);
    if k < b { FitsAt(c, Journal(t), b, k); }
    OffsetMonotone(Journal(t), a, k);
  }

  lemma OffsetMonotone(lines: seq<Line>, a: nat, k: nat)
    requires a <= k <= |lines|
    ensures Offset(lines, a) <= Offset(lines, k)
  {
    hide Frame;
    OffsetInjective(lines, a, k);
  }

  lemma {:induction false} FinishedRunIsFrozen(c: Setup, s: State, steps: seq<Step>)
    requires !s.server.running
    ensures !Run(c, s, steps).server.running && Run(c, s, steps).server.log == s.server.log
    decreases |steps|
  {
    if steps != [] {
      var before := steps[..|steps| - 1];
      FinishedRunIsFrozen(c, s, before);
      FinishedStep(c, Run(c, s, before), steps[|steps| - 1]);
      hide Apply;
    }
  }

  lemma FinishedStep(c: Setup, s: State, step: Step)
    requires !s.server.running
    ensures !Apply(c, s, step).server.running && Apply(c, s, step).server.log == s.server.log
  {
    hide ValidBatch, NextSequence, ReadBatch, AfterRecovery, RecoveryFault, LocalNext, Acknowledged, Appendable;
  }

  /** What a continuation has delivered fits, record by record. */
  lemma DeliveredFits(c: Setup, s: State, steps: seq<Step>, more: seq<Step>, n: nat)
    requires Initial(c, s) && AllInformed(c, s, steps) && AllInformed(c, Run(c, s, steps), more)
    requires n <= |Journal(Run(c, s, steps))|
    requires c.base + Journal(Run(c, s, steps))[..n] <= Run(c, Run(c, s, steps), more).server.log
    ensures AllFit(c, Journal(Run(c, s, steps))[..n])
  {
    hide *;
    var t := Run(c, s, steps);
    InformedConcat(c, s, steps, more);
    RunConcat(c, s, steps, more);
    var a, b, r := RunFits(c, s, steps + more);
    var u := Run(c, s, steps + more);
    BoundsOf(c, u, a, b, r);
    assert (steps + more)[..|steps|] == steps;
    RunIsDurable(c, s, steps + more, |steps|);
    PrefixFits(c, Journal(t)[..n], Journal(u)[..r], Journal(u)[..b]);
  }

  lemma PrefixFits(c: Setup, some: seq<Line>, registered: seq<Line>, all: seq<Line>)
    requires c.base + some <= c.base + registered && registered <= all && AllFit(c, all)
    ensures AllFit(c, some)
  {
    hide Within;
    forall k | 0 <= k < |some|
      ensures Within(Some(c.budget), c.First() + k, [some[k]])
    {
      assert (c.base + some)[|c.base| + k] == (c.base + registered)[|c.base| + k];
      assert all[k] == some[k];
    }
  }

  /**
    Exactly which records can still be delivered: in every reachable state, the first `n`
    records get to the server in some continuation if and only if they are there already, or
    the run is running and each of them fits a request of its own.
   */
  lemma DeliverableIff(c: Setup, s: State, steps: seq<Step>, n: nat)
    requires Initial(c, s) && AllInformed(c, s, steps) && n <= |Journal(Run(c, s, steps))|
    ensures var t := Run(c, s, steps);
            var wanted := c.base + Journal(t)[..n];
            (exists more :: AllInformed(c, t, more) && wanted <= Run(c, t, more).server.log) <==>
              wanted <= t.server.log || (t.server.running && AllFit(c, Journal(t)[..n]))
  {
    hide *;
    var t := Run(c, s, steps);
    var wanted := c.base + Journal(t)[..n];
    forall more | AllInformed(c, t, more) && wanted <= Run(c, t, more).server.log
      ensures wanted <= t.server.log || (t.server.running && AllFit(c, Journal(t)[..n]))
    {
      DeliveredFits(c, s, steps, more, n);
      if !t.server.running { FinishedRunIsFrozen(c, t, more); }
    }
    if wanted <= t.server.log {
      NoSteps(c, t);
    } else if t.server.running && AllFit(c, Journal(t)[..n]) {
      var a, b, r := RunKeeps(c, s, steps);
      var more, a', b', r' := Drain(c, t, n, a, b, r);
      AskingIsInformed(c, t, more);
      BoundsOf(c, Run(c, t, more), a', b', r');
      LongerLog(c, Journal(t), n, r');
    }
  }

  lemma NoSteps(c: Setup, t: State)
    ensures AllInformed(c, t, []) && Run(c, t, []) == t && AlwaysAsks([])
  {
  }

  lemma LongerLog(c: Setup, lines: seq<Line>, n: nat, r: nat)
    requires n <= r <= |lines|
    ensures c.base + lines[..n] <= c.base + lines[..r]
  {
  }

  // ---------------------------------------------- a client that did not ask

  /** Reopening continues right after the last record exactly when the client asked, or knows by itself. */
  lemma ResumesRightIff(c: Setup, s: State, steps: seq<Step>, online: bool)
    requires Initial(c, s) && AllInformed(c, s, steps)
    requires Run(c, s, steps).client.Closed? && (online ==> Run(c, s, steps).server.running)
    ensures var t := Run(c, s, steps);
            var u := ApplyOpen(c, t, online);
            && (u.client == Open(c.First() + |Journal(t)|, None) <==> c.First() == 1 || online || Journal(t) != [])
            && (u.client != Open(c.First() + |Journal(t)|, None) ==> u.client == Open(1, None) && c.First() > 1)
  {
    hide *;
    var t := Run(c, s, steps);
    var a, b, r := RunKeeps(c, s, steps);
    if c.First() == 1 || online || Journal(t) != [] {
      ResumePosition(c, t, online, a, b, r);
    } else {
      UninformedPosition(c, t, a, b, r);
      FirstIsPositive(c);
    }
  }

  /** What the server has accepted since continues the numbers of what it had, whatever clients send. */
  ghost predicate Continues(c: Setup, log: seq<Line>) {
    && c.base <= log
    && forall k :: |c.base| <= k < |log| ==> c.decode(log[k]) == Some(c.First() + k - |c.base|)
  }

  lemma NextOfContinued(c: Setup, log: seq<Line>)
    requires Continues(c, log)
    ensures NextSequence(log, c.decode) == c.First() + |log| - |c.base|
  {
    if |log| == |c.base| { assert log == c.base; }
  }

  lemma AcceptedContinues(c: Setup, v: Server, q: Request)
    requires c.base != [] && Continues(c, v.log)
    ensures Continues(c, Handle(v, q, c.decode).0.log)
    ensures Handle(v, q, c.decode).1.Accepted? ==>
              ValidBatch(q.points, c.decode) && c.decode(q.points[0]) == Some(NextSequence(v.log, c.decode))
  {
    NextOfContinued(c, v.log);
    hide NextSequence;
    if Handle(v, q, c.decode).1.Accepted? { NumbersOfBatch(q.points, c.decode, |q.points|); }
  }

  lemma {:induction false} NumbersOfBatch(points: seq<Line>, decode: Decoder, n: nat)
    requires ValidBatch(points, decode) && n <= |points|
    ensures forall i :: 0 <= i < n ==> decode(points[i]) == Some(decode(points[0]).value + i)
  {
    if n > 1 {
      NumbersOfBatch(points, decode, n - 1);
      assert decode(points[n - 1]).Some? && decode(points[n - 2]) == Some(decode(points[0]).value + (n - 2));
    }
  }

  lemma {:induction false} ServerContinues(c: Setup, s: State, steps: seq<Step>)
    requires c.base != [] && Continues(c, s.server.log)
    ensures Continues(c, Run(c, s, steps).server.log)
    decreases |steps|
  {
    if steps != [] {
      var before := steps[..|steps| - 1];
      ServerContinues(c, s, before);
      ServerContinuesStep(c, Run(c, s, before), steps[|steps| - 1]);
      hide Apply, Continues;
    }
  }

  lemma ServerContinuesStep(c: Setup, s: State, step: Step)
    requires c.base != [] && Continues(c, s.server.log)
    ensures Continues(c, Apply(c, s, step).server.log)
  {
    if step.Serve? { AcceptedContinues(c, s.server, step.request); }
    hide Continues, Handle, ReadBatch, AfterRecovery, RecoveryFault, LocalNext, Acknowledged, Appendable, NextSequence;
  }

  /** A request that holds a record with a number the server has passed is never accepted. */
  lemma OldNumbersAreRefused(c: Setup, v: Server, q: Request, line: Line)
    requires c.base != [] && Continues(c, v.log) && line in q.points
    requires c.decode(line).Some? && c.decode(line).value < c.First()
    ensures !Handle(v, q, c.decode).1.Accepted? && line !in v.log[|c.base|..]
  {
    AcceptedContinues(c, v, q);
    NextOfContinued(c, v.log);
    hide Handle, NextSequence, ValidBatch;
    if Handle(v, q, c.decode).1.Accepted? { NumberInBatch(q.points, c.decode, line); }
  }

  lemma NumberInBatch(points: seq<Line>, decode: Decoder, line: Line)
    requires ValidBatch(points, decode) && line in points
    ensures points != [] && decode(points[0]).Some? && decode(line).Some?
    ensures decode(points[0]).value <= decode(line).value
  {
    NumbersOfBatch(points, decode, |points|);
  }

  /**
    A client that opens a fresh spool without asking, on a run whose server is past number 1,
    numbers its first record wrongly, and in no continuation does the server ever accept it.
   */
  lemma UninformedRecordIsNeverAccepted(c: Setup, s: State, steps: seq<Step>, line: Line, more: seq<Step>, q: Request)
    requires Initial(c, s) && AllInformed(c, s, steps)
    requires Run(c, s, steps).client.Closed? && !Informed(c, Run(c, s, steps), OpenSpool(false))
    requires NewlineFree(line) && 0 < |line| <= MAX_RECORD_BYTES && c.decode(line) == Some(1) && line in q.points
    ensures var u := ApplyAppend(c, ApplyOpen(c, Run(c, s, steps), false), line);
            && Journal(u) == [line]
            && !Handle(Run(c, u, more).server, q, c.decode).1.Accepted?
            && c.base <= Run(c, u, more).server.log && line !in Run(c, u, more).server.log[|c.base|..]
  {
    hide *;
    var t := Run(c, s, steps);
    var a, b, r := RunKeeps(c, s, steps);
    NotInformed(c, t);
    UninformedPosition(c, t, a, b, r);
    RecoveredEmpty(c, t, a, b, r);
    var reopened := ApplyOpen(c, t, false);
    AppendsOne(c, reopened, line);
    var u := ApplyAppend(c, reopened, line);
    LogAtFirst(c, t, a, b, r);
    FirstIsPositive(c);
    ServerContinues(c, u, more);
    BaseIsThere(c, Run(c, u, more).server.log);
    OldNumbersAreRefused(c, Run(c, u, more).server, q, line);
  }

  lemma NotInformed(c: Setup, t: State)
    requires !Informed(c, t, OpenSpool(false))
    ensures c.First() != 1 && Journal(t) == []
  {
  }

  lemma RecoveredEmpty(c: Setup, t: State, a: nat, b: nat, r: nat)
    requires Inv(c, t, a, b, r) && Journal(t) == []
    ensures AfterRecovery(t.files).journal == []
  {
    RecoveryKeeps(c, t.files, a, b);
    JournalSplits(AfterRecovery(t.files).journal);
    hide AfterRecovery, Lines, Tail, RecoveryFault;
  }

  lemma LogAtFirst(c: Setup, t: State, a: nat, b: nat, r: nat)
    requires Inv(c, t, a, b, r) && Journal(t) == []
    ensures Continues(c, t.server.log)
  {
    BoundsOf(c, t, a, b, r);
    hide Inv, Lines;
    assert t.server.log == c.base;
  }

  lemma BaseIsThere(c: Setup, log: seq<Line>)
    requires Continues(c, log)
    ensures c.base <= log
  {
  }

  lemma AppendsOne(c: Setup, s: State, line: Line)
    requires s.client == Open(1, None) && s.files.journal == []
    requires NewlineFree(line) && 0 < |line| <= MAX_RECORD_BYTES && c.decode(line) == Some(1)
    ensures Journal(ApplyAppend(c, s, line)) == [line] && ApplyAppend(c, s, line).server == s.server
  {
    hide *;
    EmptyJournal();
    AppendJournal([], line, []);
    AppendResult(c, s, line);
    assert [] + [line] == [line];
  }

  lemma EmptyJournal()
    ensures Tail([]) == [] && Lines([]) == [] && NewlineFree([])
  {
  }

  lemma AppendResult(c: Setup, s: State, line: Line)
    requires s.client == Open(1, None) && s.files.journal == []
    requires NewlineFree(line) && 0 < |line| <= MAX_RECORD_BYTES && c.decode(line) == Some(1)
    ensures Journal(ApplyAppend(c, s, line)) == Lines([] + line + [NEWLINE])
            && ApplyAppend(c, s, line).server == s.server
  {
    hide Lines, NewlineFree;
  }
}

/** What the spool's operations mean for a journal of framed records. */
module SpoolLaws {
  import opened Wrappers
  import opened Framing
  import opened Requests
  import opened Spool

  /** `lines` are canonical records numbered `first`, `first + 1`, ... */
  ghost predicate Numbered(lines: seq<Line>, first: nat, decode: Decoder) {
    && AllNewlineFree(lines)
    && (forall k :: 0 <= k < |lines| ==> 0 < |lines[k]| <= MAX_RECORD_BYTES)
    && (forall k :: 0 <= k < |lines| ==> decode(lines[k]) == Some(first + k))
  }

  predicate Within(budget: Option<nat>, batchSequence: nat, lines: seq<Line>) {
    budget.Some? ==> RequestSize(batchSequence, lines) <= budget.value
  }

  lemma NumberedSlice(lines: seq<Line>, first: nat, decode: Decoder, a: nat, b: nat)
    requires Numbered(lines, first, decode) && a <= b <= |lines|
    ensures Numbered(lines[a..b], first + a, decode)
  {
  }

  lemma AllNewlineFreeFrom(lines: seq<Line>, a: nat)
    requires AllNewlineFree(lines) && a <= |lines|
    ensures AllNewlineFree(lines[a..])
  {
  }

  lemma JournalAtOffset(lines: seq<Line>, tail: seq<Byte>, a: nat)
    requires AllNewlineFree(lines) && NewlineFree(tail) && a <= |lines|
    ensures Offset(lines, a) <= |Frame(lines) + tail|
    ensures Lines((Frame(lines) + tail)[Offset(lines, a)..]) == lines[a..]
    ensures Tail((Frame(lines) + tail)[Offset(lines, a)..]) == tail
  {
    hide *;
    FrameSplit(lines, a, |lines|);
    AllNewlineFreeFrom(lines, a);
    assert (Frame(lines) + tail)[Offset(lines, a)..] == Frame(lines[a..]) + tail;
    LinesOfFrame(lines[a..], tail);
  }

  // ------------------------------------------------------------ recovery

  /**
    A journal of complete records followed by any strict byte prefix of one more
    encoded record is recovered to exactly the complete records, if and only if
    nothing beyond them was acknowledged, persisted for delivery or checkpointed.
   */
  lemma TornAppendRecovers(f: SpoolFiles, lines: seq<Line>, encoded: Line, written: nat)
    requires AllNewlineFree(lines) && NewlineFree(encoded) && |encoded| <= MAX_RECORD_BYTES
    requires written <= |encoded| && f.journal == Frame(lines) + encoded[..written]
    ensures RecoveryFault(f).None? <==>
            written == 0
              || (f.AckOffset() <= |Frame(lines)| && f.checkpoint <= |Frame(lines)| && f.DeliveryFits(|Frame(lines)|))
    ensures RecoveryFault(f).None? ==>
              && AfterRecovery(f).journal == Frame(lines)
              && AfterRecovery(f).ack == f.ack && AfterRecovery(f).checkpoint == f.checkpoint
              && AfterRecovery(f).LiveDelivery() == f.LiveDelivery()
  {
    LinesOfFrame(lines, encoded[..written]);
    if written == 0 {
      assert f.journal == Frame(lines);
    }
  }

  /** Opening never discards a complete record, malformed or not. */
  lemma RecoveryKeepsCompleteRecords(f: SpoolFiles)
    ensures Lines(AfterRecovery(f).journal) == Lines(f.journal)
    ensures RecoveryFault(f).None? ==> Tail(AfterRecovery(f).journal) == []
  {
    var lines := Lines(f.journal);
    JournalSplits(f.journal);
    LinesAreNewlineFree(f.journal);
    LinesOfFrame(lines, []);
    assert Frame(lines) + [] == Frame(lines);
  }

  // ------------------------------------------------------ batch selection

  /** A persisted window is read back whole, whatever the limit and the later bytes. */
  lemma {:induction false} SelectPersisted(rest: seq<Line>, tail: seq<Byte>, pos: nat, taken: seq<Line>, limit: nat,
                                           end: nat, budget: Option<nat>, decode: Decoder, count: nat, first: nat)
    requires count <= |rest| && Numbered(rest[..count], first, decode)
    requires end == pos + |Frame(rest[..count])|
    ensures Select(rest, tail, pos, taken, limit, Some(end), budget, decode) == Ok((taken + rest[..count], end))
    decreases count
  {
    if count == 0 {
      assert taken + rest[..0] == taken;
    } else {
      var window := rest[..count];
      assert window[0] == rest[0] && window[1..] == rest[1..][..count - 1];
      assert Frame(window) == rest[0] + [NEWLINE] + Frame(window[1..]);
      NumberedSlice(window, first, decode, 1, count);
      assert decode(window[0]) == Some(first);
      SelectPersisted(rest[1..], tail, pos + |rest[0]| + 1, taken + [rest[0]], limit, end, budget, decode,
                      count - 1, first + 1);
      assert taken + [rest[0]] + rest[1..][..count - 1] == taken + window;
    }
  }

  /** `count` is the longest selection within both the count limit and the byte budget. */
  ghost predicate LongestWithin(rest: seq<Line>, taken: seq<Line>, limit: nat, budget: Option<nat>,
                                batchSequence: nat, count: nat) {
    && count <= |rest|
    && (count > 0 ==> |taken| + count <= limit && Within(budget, batchSequence, taken + rest[..count]))
    && (count < |rest| ==>
          |taken| + count >= limit || !Within(budget, batchSequence, taken + rest[..count + 1]))
  }

  /** One step of a fresh selection over well-formed records. */
  lemma SelectStep(rest: seq<Line>, pos: nat, taken: seq<Line>, limit: nat,
                   budget: Option<nat>, decode: Decoder, batchSequence: nat)
    requires Numbered(taken + rest, batchSequence, decode)
    requires |taken| < limit && rest != []
    ensures Select(rest, [], pos, taken, limit, None, budget, decode)
            == if Within(budget, batchSequence, taken + [rest[0]]) then
                 Select(rest[1..], [], pos + |rest[0]| + 1, taken + [rest[0]], limit, None, budget, decode)
               else if taken == [] then Err(OverBudget) else Ok((taken, pos))
  {
    assert (taken + rest)[|taken|] == rest[0];
    assert (taken + [rest[0]])[0] == (taken + rest)[0];
  }

  /** With no persisted window the selection is the longest one within its bounds. */
  lemma {:induction false} SelectFresh(rest: seq<Line>, pos: nat, taken: seq<Line>, limit: nat,
                                       budget: Option<nat>, decode: Decoder, batchSequence: nat)
    returns (count: nat)
    requires Numbered(taken + rest, batchSequence, decode)
    requires taken == [] && rest != [] && limit > 0 ==> Within(budget, batchSequence, [rest[0]])
    ensures LongestWithin(rest, taken, limit, budget, batchSequence, count)
    ensures Select(rest, [], pos, taken, limit, None, budget, decode)
            == Ok((taken + rest[..count], pos + |Frame(rest[..count])|))
    decreases |rest|
  {
    hide *;
    count := 0;
    if |taken| < limit && rest != [] {
      var longer := taken + [rest[0]];
      assert taken == [] ==> longer == [rest[0]];
      SelectStep(rest, pos, taken, limit, budget, decode, batchSequence);
      if Within(budget, batchSequence, longer) {
        assert longer + rest[1..] == taken + rest;
        var n := SelectFresh(rest[1..], pos + |rest[0]| + 1, longer, limit, budget, decode, batchSequence);
        count := n + 1;
        assert longer == taken + rest[..1];
        ExtendSelection(rest, taken, limit, budget, batchSequence, n);
      } else {
        StopsHere(rest, pos, taken, limit, budget, batchSequence);
      }
    } else {
      NothingMore(rest, pos, taken, limit, budget, decode, batchSequence);
    }
  }

  lemma StopsHere(rest: seq<Line>, pos: nat, taken: seq<Line>, limit: nat, budget: Option<nat>, batchSequence: nat)
    requires rest != [] && |taken| < limit && !Within(budget, batchSequence, taken + [rest[0]])
    ensures LongestWithin(rest, taken, limit, budget, batchSequence, 0)
    ensures taken + rest[..0] == taken && pos + |Frame(rest[..0])| == pos
  {
    hide Within;
    assert rest[..1] == [rest[0]];
  }

  lemma NothingMore(rest: seq<Line>, pos: nat, taken: seq<Line>, limit: nat, budget: Option<nat>, decode: Decoder,
                    batchSequence: nat)
    requires |taken| >= limit || rest == []
    ensures LongestWithin(rest, taken, limit, budget, batchSequence, 0)
    ensures Select(rest, [], pos, taken, limit, None, budget, decode)
            == Ok((taken + rest[..0], pos + |Frame(rest[..0])|))
  {
    hide Within;
    assert taken + rest[..0] == taken;
  }

  lemma ExtendSelection(rest: seq<Line>, taken: seq<Line>, limit: nat, budget: Option<nat>, batchSequence: nat, n: nat)
    requires rest != [] && |taken| < limit && Within(budget, batchSequence, taken + rest[..1])
    requires LongestWithin(rest[1..], taken + [rest[0]], limit, budget, batchSequence, n)
    ensures LongestWithin(rest, taken, limit, budget, batchSequence, n + 1)
    ensures taken + [rest[0]] + rest[1..][..n] == taken + rest[..n + 1]
    ensures |Frame(rest[..n + 1])| == |rest[0]| + 1 + |Frame(rest[1..][..n])|
  {
    assert rest[..n + 1] == [rest[0]] + rest[1..][..n];
    FramePrepend(rest[0], rest[1..][..n]);
    assert taken + [rest[0]] + rest[1..][..n] == taken + rest[..n + 1];
    if n + 1 < |rest| {
      assert taken + [rest[0]] + rest[1..][..n + 1] == taken + rest[..n + 2];
    }
  }

  /** No longer prefix fits either: the selection is a maximum, not only a stopping point. */
  lemma LongestIsMaximal(rest: seq<Line>, limit: nat, budget: Option<nat>, batchSequence: nat, count: nat, other: nat)
    requires LongestWithin(rest, [], limit, budget, batchSequence, count)
    requires other <= |rest| && other <= limit && Within(budget, batchSequence, rest[..other])
    ensures other <= count
  {
    if count < |rest| {
      assert [] + rest[..count + 1] == rest[..count + 1];
      if count < other { RequestSizeMonotone(batchSequence, rest, count + 1, other); }
    }
  }

  /** The window that a fresh selection of `count` records after record `a` persists. */
  function WindowOf(lines: seq<Line>, a: nat, b: nat, budget: Option<nat>, first: nat): Delivery
    requires a < b <= |lines|
  {
    Delivery(Offset(lines, a), Offset(lines, b), first + a,
             if budget.Some? then Some(EncodeRequest(first + a, lines[a..b])) else None)
  }

  lemma RequestForSlice(lines: seq<Line>, first: nat, a: nat, b: nat, budget: Option<nat>, decode: Decoder)
    requires a < b <= |lines| && Numbered(lines[..b], first, decode)
    ensures FirstSequence(lines[a..b], decode) == first + a
    ensures RequestFor(lines[a..b], budget, decode) == WindowOf(lines, a, b, budget, first).request
  {
    assert lines[..b][a] == lines[a..b][0];
    assert decode(lines[..b][a]) == Some(first + a);
  }

  lemma NumberedIsNewlineFree(lines: seq<Line>, first: nat, decode: Decoder)
    requires Numbered(lines, first, decode)
    ensures AllNewlineFree(lines) && NewlineFree([])
  {
  }

  lemma CountFits(rest: seq<Line>, taken: seq<Line>, limit: nat, budget: Option<nat>, batchSequence: nat, count: nat)
    requires LongestWithin(rest, taken, limit, budget, batchSequence, count)
    ensures count <= |rest|
  {
  }

  lemma FreshSelection(lines: seq<Line>, a: nat, limit: nat, budget: Option<nat>, decode: Decoder, first: nat)
    returns (count: nat)
    requires Numbered(lines, first, decode) && a <= |lines|
    requires a < |lines| && limit > 0 ==> Within(budget, first + a, [lines[a]])
    ensures LongestWithin(lines[a..], [], limit, budget, first + a, count)
    ensures Offset(lines, a) <= |Frame(lines)|
    ensures var rest := Frame(lines)[Offset(lines, a)..];
            Select(Lines(rest), Tail(rest), Offset(lines, a), [], limit, None, budget, decode)
            == Ok((lines[a..a + count], Offset(lines, a + count)))
  {
    hide *;
    NumberedIsNewlineFree(lines, first, decode);
    assert Frame(lines) == Frame(lines) + [];
    JournalAtOffset(lines, [], a);
    NumberedSlice(lines, first, decode, a, |lines|);
    assert [] + lines[a..] == lines[a..] == lines[a..|lines|];
    count := SelectFresh(lines[a..], Offset(lines, a), [], limit, budget, decode, first + a);
    CountFits(lines[a..], [], limit, budget, first + a, count);
    assert [] + lines[a..][..count] == lines[a..][..count] == lines[a..a + count];
    FrameSplit(lines, a, a + count);
  }

  lemma PersistedSelection(lines: seq<Line>, tail: seq<Byte>, a: nat, b: nat, limit: nat,
                           budget: Option<nat>, decode: Decoder, first: nat)
    requires AllNewlineFree(lines) && NewlineFree(tail)
    requires a < b <= |lines| && Numbered(lines[..b], first, decode)
    ensures Offset(lines, a) < Offset(lines, b) <= |Frame(lines) + tail|
    ensures var rest := (Frame(lines) + tail)[Offset(lines, a)..];
            Select(Lines(rest), Tail(rest), Offset(lines, a), [], limit, Some(Offset(lines, b)), budget, decode)
            == Ok((lines[a..b], Offset(lines, b)))
  {
    hide Select, Frame, Lines, Tail, CompleteLength, Offset;
    JournalAtOffset(lines, tail, a);
    FrameSplit(lines, a, b);
    assert lines[a..][..b - a] == lines[a..b] == lines[..b][a..b];
    NumberedSlice(lines[..b], first, decode, a, b);
    SelectPersisted(lines[a..], tail, Offset(lines, a), [], limit, Offset(lines, b), budget, decode, b - a, first + a);
    assert [] + lines[a..][..b - a] == lines[a..b];
  }

  /** A window agrees with the records of `lines` from `a` up to `b`. */
  lemma ConcludeWindow(g: SpoolFiles, lines: seq<Line>, a: nat, b: nat, budget: Option<nat>, decode: Decoder,
                       first: nat)
    requires a < b <= |lines| && Numbered(lines[..b], first, decode) && Within(budget, first + a, lines[a..b])
    requires g.delivery.Some? ==> g.delivery.value == WindowOf(lines, a, b, budget, first)
    ensures Conclude(g, Offset(lines, a), Ok((lines[a..b], Offset(lines, b))), budget, decode)
            == (g.(delivery := Some(WindowOf(lines, a, b, budget, first))), Ok((lines[a..b], Offset(lines, b))))
  {
    hide Offset, EncodeRequest;
    RequestForSlice(lines, first, a, b, budget, decode);
  }

  lemma ReadBatchUnfolds(f: SpoolFiles, limit: nat, budget: Option<nat>, decode: Decoder)
    requires f.AckOffset() <= |f.journal| && f.DeliveryFits(|f.journal|)
    ensures ReadBatch(f, limit, budget, decode)
            == var rest := f.journal[f.AckOffset()..];
               Conclude(f.(delivery := f.LiveDelivery()), f.AckOffset(),
                        Select(Lines(rest), Tail(rest), f.AckOffset(), [], limit, FixedEnd(f.LiveDelivery()), budget,
                               decode),
                        budget, decode)
  {
  }

  lemma ConcludeNothing(g: SpoolFiles, offset: nat, budget: Option<nat>, decode: Decoder)
    requires g.delivery.None?
    ensures Conclude(g, offset, Ok(([], offset)), budget, decode) == (g, Ok(([], offset)))
  {
  }

  /**
    With no persisted window, a selection returns the longest pending prefix within
    both bounds and persists exactly that window.
   */
  lemma ReadFreshBatch(f: SpoolFiles, lines: seq<Line>, a: nat, limit: nat, budget: Option<nat>, decode: Decoder,
                       first: nat)
    returns (count: nat)
    requires Numbered(lines, first, decode) && f.journal == Frame(lines)
    requires a <= |lines| && f.AckOffset() == Offset(lines, a) && f.LiveDelivery().None?
    requires a < |lines| && limit > 0 ==> Within(budget, first + a, [lines[a]])
    ensures LongestWithin(lines[a..], [], limit, budget, first + a, count)
    ensures ReadBatch(f, limit, budget, decode)
            == (f.(delivery := if count == 0 then None else Some(WindowOf(lines, a, a + count, budget, first))),
                Ok((lines[a..a + count], Offset(lines, a + count))))
  {
    count := FreshSelection(lines, a, limit, budget, decode, first);
    FreshConclusion(f.(delivery := None), lines, a, count, limit, budget, decode, first);
    FreshUnfolds(f, Offset(lines, a), limit, budget, decode);
    hide *;
  }

  lemma FreshUnfolds(f: SpoolFiles, offset: nat, limit: nat, budget: Option<nat>, decode: Decoder)
    requires f.LiveDelivery().None? && f.AckOffset() == offset <= |f.journal|
    ensures ReadBatch(f, limit, budget, decode)
            == var rest := f.journal[offset..];
               Conclude(f.(delivery := None), offset,
                        Select(Lines(rest), Tail(rest), offset, [], limit, None, budget, decode), budget, decode)
  {
    ReadBatchUnfolds(f, limit, budget, decode);
  }

  lemma FreshConclusion(g: SpoolFiles, lines: seq<Line>, a: nat, count: nat, limit: nat,
                        budget: Option<nat>, decode: Decoder, first: nat)
    requires Numbered(lines, first, decode) && a <= |lines| && g.delivery.None?
    requires LongestWithin(lines[a..], [], limit, budget, first + a, count)
    ensures Conclude(g, Offset(lines, a), Ok((lines[a..a + count], Offset(lines, a + count))), budget, decode)
            == (g.(delivery := if count == 0 then None else Some(WindowOf(lines, a, a + count, budget, first))),
                Ok((lines[a..a + count], Offset(lines, a + count))))
  {
    hide Conclude, Offset, WindowOf, RequestSize, Numbered, Within;
    if count > 0 {
      SelectionFits(lines, first, decode, a, count, limit, budget);
      ConcludeWindow(g, lines, a, a + count, budget, decode, first);
    } else {
      assert lines[a..a + count] == [];
      ConcludeNothing(g, Offset(lines, a), budget, decode);
    }
  }

  lemma SelectionFits(lines: seq<Line>, first: nat, decode: Decoder, a: nat, count: nat, limit: nat,
                      budget: Option<nat>)
    requires Numbered(lines, first, decode) && a <= |lines| && count > 0
    requires LongestWithin(lines[a..], [], limit, budget, first + a, count)
    ensures Numbered(lines[..a + count], first, decode) && Within(budget, first + a, lines[a..a + count])
  {
    assert [] + lines[a..][..count] == lines[a..a + count];
  }

  /** A persisted window is read back exactly, whatever the limit and the later appends. */
  lemma ReadPersistedBatch(f: SpoolFiles, lines: seq<Line>, tail: seq<Byte>, a: nat, b: nat, limit: nat,
                           budget: Option<nat>, decode: Decoder, first: nat)
    requires AllNewlineFree(lines) && NewlineFree(tail) && f.journal == Frame(lines) + tail
    requires a < b <= |lines| && Numbered(lines[..b], first, decode)
    requires f.AckOffset() == Offset(lines, a) && f.delivery == Some(WindowOf(lines, a, b, budget, first))
    requires Within(budget, first + a, lines[a..b])
    ensures ReadBatch(f, limit, budget, decode) == (f, Ok((lines[a..b], Offset(lines, b))))
  {
    PersistedSelection(lines, tail, a, b, limit, budget, decode, first);
    ConcludeWindow(f, lines, a, b, budget, decode, first);
    hide Conclude, Select, Frame, Offset, Lines, Tail, CompleteLength, RequestSize, ReadBatch, Numbered, Within;
    assert f.LiveDelivery() == f.delivery;
    ReadBatchUnfolds(f, limit, budget, decode);
  }
}

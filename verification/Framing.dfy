/**
  Newline framing of the client's journals.  A journal file is a byte string;
  its records are the maximal newline-terminated lines, and whatever follows the
  last newline is a torn final append.
 */
module Framing {

  newtype Byte = b: int | 0 <= b < 256

  type Line = seq<Byte>

  const NEWLINE: Byte := 10

  predicate NewlineFree(s: seq<Byte>) {
    forall i :: 0 <= i < |s| ==> s[i] != NEWLINE
  }

  predicate AllNewlineFree(lines: seq<Line>) {
    forall i :: 0 <= i < |lines| ==> NewlineFree(lines[i])
  }

  /** The bytes that appending `lines` one after the other leaves in a journal. */
  function Frame(lines: seq<Line>): seq<Byte> {
    if lines == [] then [] else lines[0] + [NEWLINE] + Frame(lines[1..])
  }

  /** The byte offset at which record `k` starts, and record `k - 1` ends. */
  function Offset(lines: seq<Line>, k: nat): nat
    requires k <= |lines|
  {
    |Frame(lines[..k])|
  }

  function FirstNewline(s: seq<Byte>): (i: nat)
    requires !NewlineFree(s)
    ensures i < |s| && s[i] == NEWLINE
    ensures forall j :: 0 <= j < i ==> s[j] != NEWLINE
  {
    if s[0] == NEWLINE then 0 else 1 + FirstNewline(s[1..])
  }

  /** The length of the part of a journal that ends with its last newline. */
  function CompleteLength(s: seq<Byte>): (n: nat)
    ensures n <= |s|
    ensures n == 0 || s[n - 1] == NEWLINE
    ensures forall j :: n <= j < |s| ==> s[j] != NEWLINE
  {
    if s == [] then 0
    else if s[|s| - 1] == NEWLINE then |s|
    else CompleteLength(s[..|s| - 1])
  }

  /** The complete records of a journal, without their newlines. */
  function Lines(s: seq<Byte>): seq<Line>
    decreases |s|
  {
    if NewlineFree(s) then [] else
      var i := FirstNewline(s);
      [s[..i]] + Lines(s[i + 1..])
  }

  function Tail(s: seq<Byte>): seq<Byte> {
    s[CompleteLength(s)..]
  }

  // ---------------------------------------------------------------- laws

  lemma {:induction false} FrameConcat(a: seq<Line>, b: seq<Line>)
    ensures Frame(a + b) == Frame(a) + Frame(b)
  {
    if a == [] {
      assert a + b == b;
    } else {
      assert (a + b)[1..] == a[1..] + b;
      calc {
        Frame(a + b);
        a[0] + [NEWLINE] + Frame(a[1..] + b);
        { FrameConcat(a[1..], b); }
        a[0] + [NEWLINE] + (Frame(a[1..]) + Frame(b));
        Frame(a) + Frame(b);
      }
    }
  }

  lemma FrameSnoc(a: seq<Line>, line: Line)
    ensures Frame(a + [line]) == Frame(a) + line + [NEWLINE]
  {
    FrameConcat(a, [line]);
    assert [line][1..] == [];
  }

  lemma CompleteLengthUnique(s: seq<Byte>, n: nat)
    requires n <= |s| && (n == 0 || s[n - 1] == NEWLINE)
    requires forall j :: n <= j < |s| ==> s[j] != NEWLINE
    ensures CompleteLength(s) == n
  {
  }

  lemma CompleteLengthPrepend(line: Line, rest: seq<Byte>)
    ensures CompleteLength(line + [NEWLINE] + rest) == |line| + 1 + CompleteLength(rest)
  {
    var s, m := line + [NEWLINE] + rest, CompleteLength(rest);
    forall j | |line| + 1 + m <= j < |s|
      ensures s[j] != NEWLINE
    {
      assert s[j] == rest[j - |line| - 1];
    }
    CompleteLengthUnique(s, |line| + 1 + m);
  }

  lemma LinesPrepend(line: Line, rest: seq<Byte>)
    requires NewlineFree(line)
    ensures Lines(line + [NEWLINE] + rest) == [line] + Lines(rest)
    ensures Tail(line + [NEWLINE] + rest) == Tail(rest)
  {
    var s := line + [NEWLINE] + rest;
    assert s[|line|] == NEWLINE;
    assert FirstNewline(s) == |line|;
    assert s[..|line|] == line && s[|line| + 1..] == rest;
    CompleteLengthPrepend(line, rest);
    assert s[|line| + 1 + CompleteLength(rest)..] == rest[CompleteLength(rest)..];
  }

  lemma {:induction false} FrameEndsWithNewline(lines: seq<Line>)
    ensures lines != [] ==> Frame(lines) != [] && Frame(lines)[|Frame(lines)| - 1] == NEWLINE
  {
    if lines != [] {
      FrameEndsWithNewline(lines[1..]);
    }
  }

  lemma FramePrepend(line: Line, lines: seq<Line>)
    ensures Frame([line] + lines) == line + [NEWLINE] + Frame(lines)
  {
    assert ([line] + lines)[1..] == lines;
  }

  lemma {:induction false} LinesAreNewlineFree(s: seq<Byte>)
    ensures AllNewlineFree(Lines(s))
    decreases |s|
  {
    if !NewlineFree(s) {
      LinesAreNewlineFree(s[FirstNewline(s) + 1..]);
    }
  }

  /** A journal splits into its framed records and its torn tail. */
  lemma {:induction false} JournalSplits(s: seq<Byte>)
    ensures s == Frame(Lines(s)) + Tail(s)
    ensures |Frame(Lines(s))| == CompleteLength(s)
    decreases |s|
  {
    if NewlineFree(s) {
      CompleteLengthUnique(s, 0);
    } else {
      var i := FirstNewline(s);
      var line, rest := s[..i], s[i + 1..];
      assert s == line + [NEWLINE] + rest;
      JournalSplits(rest);
      SplitStep(line, rest, Lines(rest), Tail(rest));
    }
  }

  lemma SplitStep(line: Line, rest: seq<Byte>, lines: seq<Line>, tail: seq<Byte>)
    requires NewlineFree(line)
    requires lines == Lines(rest) && tail == Tail(rest) && rest == Frame(lines) + tail
    requires |Frame(lines)| == CompleteLength(rest)
    ensures var s := line + [NEWLINE] + rest;
            s == Frame(Lines(s)) + Tail(s) && |Frame(Lines(s))| == CompleteLength(s)
  {
    var s := line + [NEWLINE] + rest;
    LinesPrepend(line, rest);
    CompleteLengthPrepend(line, rest);
    FramePrepend(line, lines);
    ConcatAssociates(line + [NEWLINE], Frame(lines), tail);
  }

  lemma ConcatAssociates(a: seq<Byte>, b: seq<Byte>, c: seq<Byte>)
    ensures a + b + c == a + (b + c)
  {
  }

  /** Framed records are read back exactly, whatever torn bytes follow them. */
  lemma {:induction false} LinesOfFrame(lines: seq<Line>, tail: seq<Byte>)
    requires AllNewlineFree(lines) && NewlineFree(tail)
    ensures Lines(Frame(lines) + tail) == lines
    ensures Tail(Frame(lines) + tail) == tail
    ensures CompleteLength(Frame(lines) + tail) == |Frame(lines)|
  {
    if lines == [] {
      assert Frame(lines) + tail == tail;
      CompleteLengthUnique(tail, 0);
    } else {
      var rest := Frame(lines[1..]) + tail;
      assert Frame(lines) + tail == lines[0] + [NEWLINE] + rest;
      LinesOfFrame(lines[1..], tail);
      LinesPrepend(lines[0], rest);
      CompleteLengthPrepend(lines[0], rest);
    }
  }

  lemma FrameSplit(lines: seq<Line>, a: nat, b: nat)
    requires a <= b <= |lines|
    ensures Frame(lines[..b]) == Frame(lines[..a]) + Frame(lines[a..b])
    ensures Offset(lines, b) == Offset(lines, a) + |Frame(lines[a..b])|
    ensures Offset(lines, a) <= Offset(lines, b) <= |Frame(lines)|
    ensures a < b ==> Offset(lines, a) < Offset(lines, b)
    ensures Frame(lines)[Offset(lines, a)..Offset(lines, b)] == Frame(lines[a..b])
    ensures Frame(lines)[Offset(lines, a)..] == Frame(lines[a..])
  {
    assert lines[..b] == lines[..a] + lines[a..b];
    FrameConcat(lines[..a], lines[a..b]);
    assert lines == lines[..b] + lines[b..];
    FrameConcat(lines[..b], lines[b..]);
    assert lines == lines[..a] + lines[a..];
    FrameConcat(lines[..a], lines[a..]);
  }

  /** Offsets of different records differ, so an offset names one record. */
  lemma OffsetInjective(lines: seq<Line>, a: nat, b: nat)
    requires a <= |lines| && b <= |lines|
    ensures Offset(lines, a) == Offset(lines, b) <==> a == b
    ensures Offset(lines, a) < Offset(lines, b) <==> a < b
  {
    if a < b { FrameSplit(lines, a, b); }
    if b < a { FrameSplit(lines, b, a); }
  }

  lemma OffsetOfExtension(lines: seq<Line>, more: seq<Line>, k: nat)
    requires k <= |lines|
    ensures Offset(lines + more, k) == Offset(lines, k)
  {
    assert (lines + more)[..k] == lines[..k];
  }

  lemma OffsetEnds(lines: seq<Line>)
    ensures Offset(lines, 0) == 0 && Offset(lines, |lines|) == |Frame(lines)|
  {
    assert lines[..|lines|] == lines;
  }
}

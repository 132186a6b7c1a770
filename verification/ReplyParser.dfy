/** The resumable reply parser as the program runs it: line- and block-oriented,
    over whatever bytes one read delivered.  Every method says which run of the
    automaton it performed. */
module ReplyParser {
  import opened Shared
  import opened CString
  import opened ReplyAutomaton

  const LINE_BUF_SIZE: nat := 1024

  /** `after` is where the automaton gets from `before`, if the stream is good. */
  ghost predicate Follows(before: Parse, bytes: string, after: Parse) {
    Run(before, bytes).bad || Run(before, bytes) == after
  }

  lemma FollowsConcat(p: Parse, a: string, q: Parse, b: string, r: Parse)
    requires Follows(p, a, q) && Follows(q, b, r)
    ensures Follows(p, a + b, r)
  {
    RunConcat(p, a, b);
    if Run(p, a).bad {
      RunFromBad(Run(p, a), b);
    }
  }

  lemma FollowsOn(p: Parse, buf: string, i: nat, j: nat, k: nat, q: Parse, r: Parse)
    requires i <= j <= k <= |buf|
    requires Follows(p, buf[i..j], q) && Follows(q, buf[j..k], r)
    ensures Follows(p, buf[i..k], r)
  {
    FollowsConcat(p, buf[i..j], q, buf[j..k], r);
    assert buf[i..j] + buf[j..k] == buf[i..k];
  }

  function Clip(text: string): string {
    if |text| > MAX_LINE then text[..MAX_LINE] else text
  }

  lemma ClipIsCopy(line: string, seg: string, n: nat)
    requires |line| <= MAX_LINE
    requires n == if |line| + |seg| > MAX_LINE then MAX_LINE - |line| else |seg|
    ensures Clip(line + seg) == line + seg[..n]
  {
    assert seg[..|seg|] == seg;
  }

  /** What get_line makes of the line so far and a segment: whether the line is
      finished, and its text.  A full buffer counts as a finished line, and the
      part of the segment that did not fit is dropped. */
  function Take(line: string, seg: string): (bool, string)
    requires |line| < MAX_LINE && seg != ""
  {
    Finished(Clip(line + seg))
  }

  function Finished(text: string): (bool, string)
    requires text != ""
  {
    if text[|text| - 1] == LF || |text| == MAX_LINE then (true, Chop(text)) else (false, text)
  }

  // ----- why streams with overlong lines and NUL bytes are called bad

  /** What a connection in the headers does with one segment, of any stream. */
  function HeaderStep(p: Parse, seg: string): Parse
    requires |p.line| < MAX_LINE && seg != ""
  {
    var (complete, line) := Take(p.line, seg);
    if complete then HeaderLine(p.(line := ""), line) else p.(line := line)
  }

  /** A connection at the beginning of a header line. */
  predicate AtHeaderLine(p: Parse) {
    (p.phase.Header? || p.phase.Continue?) && p.line == ""
  }

  /** One line: its only line feed is its last byte. */
  predicate OneLine(line: string) {
    line != "" && line[|line| - 1] == LF && forall i :: 0 <= i < |line| - 1 ==> line[i] != LF
  }

  predicate SurvivesCut(p: Parse, line: string, k: nat)
    requires AtHeaderLine(p) && 0 < k < |line|
  {
    var q := HeaderStep(p, line[..k]);
    |q.line| < MAX_LINE && HeaderStep(q, line[k..]) == HeaderStep(p, line)
  }

  lemma TakeHead(line: string, k: nat)
    requires OneLine(line) && |line| <= MAX_LINE && 0 < k < |line|
    ensures Take("", line[..k]) == (false, line[..k]) && Take(line[..k], line[k..]) == Take("", line)
  {
    assert "" + line[..k] == line[..k] && "" + line == line && line[..k] + line[k..] == line;
    assert line[..k][k - 1] == line[k - 1];
  }

  lemma ShortLineSurvives(p: Parse, line: string, k: nat)
    requires AtHeaderLine(p) && OneLine(line) && |line| <= MAX_LINE && 0 < k < |line|
    ensures SurvivesCut(p, line, k)
  {
    TakeHead(line, k);
    var q := HeaderStep(p, line[..k]);
    assert q == p.(line := line[..k]);
  }

  /** A segment that makes one whole line, from the beginning of one. */
  lemma StepOfLine(p: Parse, seg: string, text: string)
    requires AtHeaderLine(p) && seg != "" && Take("", seg) == (true, text)
    ensures HeaderStep(p, seg) == HeaderLine(p, text)
    ensures text != "" ==> HeaderStep(p, seg).signals == p.signals + [RecvHeader(p.Id(), text)] && AtHeaderLine(HeaderStep(p, seg))
    ensures text == "" ==> HeaderStep(p, seg).signals == p.signals && HeaderStep(p, seg) != p
  {
    assert p.(line := "") == p;
  }

  lemma TakeLong(line: string)
    requires OneLine(line) && |line| > MAX_LINE
    ensures Take("", line) == Take("", line[..MAX_LINE]) == (true, line[..MAX_LINE])
    ensures Take("", line[MAX_LINE..]).0
  {
    var head, tail := line[..MAX_LINE], line[MAX_LINE..];
    assert "" + line == line && "" + head == head && "" + tail == tail;
    assert head[|head| - 1] == line[MAX_LINE - 1] && tail[|tail| - 1] == line[|line| - 1];
  }

  /** A line that is longer is cut to 1023 bytes, and a read that ends there makes a
      second line of what is left. */
  lemma LongLineDoesNot(p: Parse, line: string)
    requires AtHeaderLine(p) && OneLine(line) && |line| > MAX_LINE
    ensures !SurvivesCut(p, line, MAX_LINE)
  {
    var head, tail := line[..MAX_LINE], line[MAX_LINE..];
    TakeLong(line);
    StepOfLine(p, line, head);
    StepOfLine(p, head, head);
    var q := HeaderStep(p, head);
    StepOfLine(q, tail, Take("", tail).1);
    if Take("", tail).1 != "" {
      assert |HeaderStep(q, tail).signals| == |q.signals| + 1;
    }
  }

  /** A header line is read alike however reads cut it if and only if it fits the buffer. */
  lemma LinesThatSurvive(p: Parse, line: string)
    requires AtHeaderLine(p) && OneLine(line)
    ensures (forall k :: 0 < k < |line| ==> SurvivesCut(p, line, k)) <==> |line| <= 1023
  {
    if |line| <= MAX_LINE {
      forall k | 0 < k < |line| ensures SurvivesCut(p, line, k) {
        ShortLineSurvives(p, line, k);
      }
    } else {
      LongLineDoesNot(p, line);
    }
  }

  /** strchr does not see behind a NUL: a line with one swallows the lines that come in
      the same read, and does not if a read ends with it. */
  lemma NulDependsOnCut(p: Parse, a: string, b: string)
    requires AtHeaderLine(p) && OneLine(a) && OneLine(b) && NUL in a && |a + b| <= MAX_LINE
    ensures OneSegment(a + b) && OneSegment(a) && OneSegment(b)
    ensures AtHeaderLine(HeaderStep(p, a))
    ensures HeaderStep(HeaderStep(p, a), b) != HeaderStep(p, a + b)
  {
    LineIsSegment(a);
    LineIsSegment(b);
    NulHidesLines(a, b);
    TakeLine(a);
    TakeLine(b);
    assert (a + b)[|a + b| - 1] == LF;
    TakeLine(a + b);
    ChoppedKeeps(a, b);
    var first, both := Chop(a), Chop(a + b);
    StepOfLine(p, a, first);
    StepOfLine(p, a + b, both);
    var q := HeaderStep(p, a);
    StepOfLine(q, b, Chop(b));
    var r := HeaderStep(q, b);
    assert q.signals[|p.signals|] == RecvHeader(p.Id(), first);
    assert r.signals[|p.signals|] == RecvHeader(p.Id(), first);
    assert HeaderStep(p, a + b).signals[|p.signals|] == RecvHeader(p.Id(), both);
  }

  lemma TakeLine(line: string)
    requires line != "" && line[|line| - 1] == LF && |line| <= MAX_LINE
    ensures Take("", line) == (true, Chop(line))
  {
    assert "" + line == line;
  }

  lemma {:induction false} LineIsSegment(line: string)
    requires OneLine(line)
    ensures OneSegment(line)
    decreases |line|
  {
    if |line| > 1 {
      LineIsSegment(line[1..]);
    }
  }

  lemma {:induction false} NulHidesLines(a: string, b: string)
    requires OneLine(a) && NUL in a
    ensures OneSegment(a + b)
    decreases |a|
  {
    if a[0] != NUL && |a| > 1 {
      assert (a + b)[1..] == a[1..] + b;
      NulHidesLines(a[1..], b);
    }
  }

  /** The line with the NUL is not empty, and is not what both lines make together. */
  lemma ChoppedKeeps(a: string, b: string)
    requires OneLine(a) && OneLine(b) && NUL in a
    ensures Chop(a) != "" && Chop(a + b) != "" && Chop(a) != Chop(a + b)
  {
    var i :| 0 <= i < |a| && a[i] == NUL;
    assert i < |a| - 1;
    if |Chop(a)| > i { assert Chop(a)[i] == NUL; }
    assert Chop(a + b) == (a + b)[..|Chop(a + b)|];
    assert |Chop(a + b)| >= |a + b| - 2;
  }

  lemma TakeFitting(line: string, seg: string)
    requires |line| < MAX_LINE && seg != "" && Fits(line, seg)
    ensures Take(line, seg) == (Complete(seg), if Complete(seg) then Chop(line + seg) else line + seg)
  {
  }

  lemma TakenLine(p: Parse, seg: string)
    requires |p.line| < MAX_LINE && !p.bad && LinePhase(p) && p.recvq != [] && OneSegment(seg)
    ensures var (complete, line) := Take(p.line, seg);
            Follows(p, seg, if complete then LineEnd(LineStart(p).(line := ""), line)
                            else LineStart(p).(line := line))
  {
    RunLineSegment(p, seg);
    if Fits(p.line, seg) {
      TakeFitting(p.line, seg);
    }
  }

  lemma StatusSegment(p: Parse, seg: string, q: Parse)
    requires |p.line| < MAX_LINE && !p.bad && p.phase.Status? && p.recvq != [] && OneSegment(seg)
    requires var (complete, line) := Take(p.line, seg);
             if complete then StatusEnd(LineStart(p).(line := ""), line).bad
                              || q == StatusEnd(LineStart(p).(line := ""), line)
             else q == LineStart(p).(line := line)
    ensures Follows(p, seg, q)
  {
    TakenLine(p, seg);
  }

  lemma OtherSegment(p: Parse, seg: string, q: Parse)
    requires |p.line| < MAX_LINE && !p.bad && p.recvq != [] && OneSegment(seg)
    requires LinePhase(p) && !p.phase.Status?
    requires var (complete, line) := Take(p.line, seg);
             if complete then LineEnd(p.(line := ""), line).bad || q == LineEnd(p.(line := ""), line)
             else q == p.(line := line)
    ensures Follows(p, seg, q)
  {
    TakenLine(p, seg);
  }

  lemma BodyFollows(p: Parse, seg: string, q: Parse)
    requires !p.bad && BodyPhase(p) && p.recvq != [] && p.contentBytes + |seg| <= p.contentLength
    requires q == BodySegment(p, seg)
    ensures Follows(p, seg, q)
  {
    if seg != "" {
      RunBodySegment(p, seg);
    } else {
      assert q.signals == p.signals;
    }
  }

  /** `after` is where a settled connection is after these bytes. */
  ghost predicate Reaches(before: Parse, bytes: string, after: Parse) {
    Run(before, bytes).bad || after == Settle(Run(before, bytes))
  }

  lemma ReachesOn(p: Parse, a: string, q: Parse, b: string, r: Parse)
    requires Reaches(p, a, q) && Follows(q, b, r) && b != ""
    ensures Reaches(p, a + b, Settle(r))
  {
    RunConcat(p, a, b);
    if Run(p, a).bad {
      RunFromBad(Run(p, a), b);
    } else {
      RunSettled(Run(p, a), b);
    }
  }

  lemma ReachesOver(p: Parse, a: string, q: Parse, b: string, r: Parse)
    requires Reaches(p, a, q) && Reaches(q, b, r)
    ensures Reaches(p, a + b, r)
  {
    RunConcat(p, a, b);
    if Run(p, a).bad {
      RunFromBad(Run(p, a), b);
    } else if b == "" {
      SettleTwice(Run(p, a));
    } else {
      RunSettled(Run(p, a), b);
    }
  }

  lemma ReachesStuck(p: Parse, a: string, q: Parse, b: string)
    requires Reaches(p, a, q) && (q.phase.Closing? || q.phase.Aborted?)
    ensures Reaches(p, a + b, q)
  {
    RunStuck(q, b);
    ReachesOver(p, a, q, b, q);
  }

  lemma FollowsOnSound(p: Parse, buf: string, i: nat, j: nat, k: nat, q: Parse, r: Parse)
    requires i <= j <= k <= |buf|
    requires Sound(p) && Follows(p, buf[i..j], q) && (Sound(q) ==> Follows(q, buf[j..k], r))
    ensures Follows(p, buf[i..k], r)
  {
    if Run(p, buf[i..j]).bad {
      BadStays(p, buf, i, j, k);
    } else {
      RunSound(p, buf[i..j]);
      FollowsOn(p, buf, i, j, k, q, r);
    }
  }

  lemma ReachesOnSound(p: Parse, buf: string, j: nat, k: nat, q: Parse, r: Parse)
    requires j < k <= |buf|
    requires Sound(p) && Reaches(p, buf[..j], q) && (Sound(q) ==> Follows(q, buf[j..k], r))
    ensures Reaches(p, buf[..k], Settle(r))
  {
    assert buf[..j] == buf[0..j] && buf[..k] == buf[0..k];
    if Run(p, buf[..j]).bad {
      BadStays(p, buf, 0, j, k);
    } else {
      RunSound(p, buf[..j]);
      SettleSound(Run(p, buf[..j]));
      ReachesOn(p, buf[..j], q, buf[j..k], r);
      assert buf[..j] + buf[j..k] == buf[..k];
    }
  }

  lemma ReachesAbort(p: Parse, buf: string, j: nat, q: Parse)
    requires j < |buf| && Sound(p) && Reaches(p, buf[..j], q)
    requires !q.bad && q.recvq == [] && !q.phase.Done? && !q.phase.Closing? && !q.phase.Aborted?
    ensures Reaches(p, buf, q.(phase := Aborted))
  {
    var b, tail := buf[j], buf[j + 1..];
    var r := q.(phase := Aborted);
    assert buf == buf[..j] + ([b] + tail);
    RunCons(q, b, tail);
    assert Step(q, b) == r;
    RunStuck(r, tail);
    ReachesOver(p, buf[..j], q, [b] + tail, r);
  }

  lemma ReachesClose(p: Parse, buf: string, k: nat, q: Parse)
    requires k <= |buf| && Reaches(p, buf[..k], q) && q.phase.Closing?
    ensures Reaches(p, buf, q)
  {
    assert buf == buf[..k] + buf[k..];
    ReachesStuck(p, buf[..k], q, buf[k..]);
  }

  lemma ReachesNextRead(p: Parse, cuts: seq<string>, i: nat, q: Parse, r: Parse)
    requires i < |cuts| && Sound(p) && Reaches(p, Concat(cuts[..i]), q)
    requires Sound(q) ==> Reaches(q, cuts[i], r)
    ensures Reaches(p, Concat(cuts[..i + 1]), r)
  {
    var before := cuts[..i + 1];
    ConcatSplit(before, i);
    assert before[..i] == cuts[..i] && before[i..] == [cuts[i]];
    assert Concat([cuts[i]]) == cuts[i] + Concat([cuts[i]][1..]);
    assert Concat(before) == Concat(cuts[..i]) + cuts[i];
    if Run(p, Concat(cuts[..i])).bad {
      RunConcat(p, Concat(cuts[..i]), cuts[i]);
      RunFromBad(Run(p, Concat(cuts[..i])), cuts[i]);
    } else {
      RunSound(p, Concat(cuts[..i]));
      SettleSound(Run(p, Concat(cuts[..i])));
      ReachesOver(p, Concat(cuts[..i]), q, cuts[i], r);
    }
  }

  lemma ReachesRest(p: Parse, cuts: seq<string>, i: nat, q: Parse)
    requires i <= |cuts| && Reaches(p, Concat(cuts[..i]), q)
    requires i == |cuts| || q.phase.Closing? || q.phase.Aborted?
    ensures Reaches(p, Concat(cuts), q)
  {
    if i == |cuts| {
      assert cuts[..i] == cuts;
    } else {
      ConcatSplit(cuts, i);
      ReachesStuck(p, Concat(cuts[..i]), q, Concat(cuts[i..]));
    }
  }

  lemma BadStays(p: Parse, buf: string, i: nat, j: nat, k: nat)
    requires i <= j <= k <= |buf|
    requires Run(p, buf[i..j]).bad
    ensures Run(p, buf[i..k]).bad
  {
    assert buf[i..j] + buf[j..k] == buf[i..k];
    RunConcat(p, buf[i..j], buf[j..k]);
    RunFromBad(Run(p, buf[i..j]), buf[j..k]);
  }

  /** On a good stream a chunk line leaves body bytes to come. */
  ghost predicate Sized(p: Parse, bytes: string, r: Parse) {
    Sound(p) ==> Run(p, bytes).bad || (BodyPhase(r) && !r.bad && r.recvq != [])
  }

  lemma ChunkSized(q: Parse, seg: string, r: Parse)
    requires !q.bad && q.phase.Chunked? && q.recvq != [] && q.contentBytes >= q.contentLength && |q.line| < MAX_LINE
    requires OneSegment(seg) && Take(q.line, seg).0
    requires var end := ChunkLine(q.(line := ""), Take(q.line, seg).1);
             end.bad || (r == end && r.contentBytes == q.contentBytes && r.contentLength > q.contentLength)
    requires r.phase.Chunked? && !r.bad && r.recvq != []
    ensures Sized(q, seg, r)
  {
    ChunkEndsGood(q, seg);
  }

  lemma SizedOn(p: Parse, buf: string, i: nat, j: nat, k: nat, q: Parse, r: Parse)
    requires i <= j <= k <= |buf|
    requires Sound(p) && Follows(p, buf[i..j], q) && Sized(q, buf[j..k], r)
    ensures Sized(p, buf[i..k], r)
  {
    assert buf[i..j] + buf[j..k] == buf[i..k];
    if Run(p, buf[i..j]).bad {
      BadStays(p, buf, i, j, k);
    } else {
      RunSound(p, buf[i..j]);
      RunConcat(p, buf[i..j], buf[j..k]);
    }
  }

  lemma ChunkEndsGood(q: Parse, seg: string)
    requires !q.bad && q.phase.Chunked? && q.recvq != [] && q.contentBytes >= q.contentLength && |q.line| < MAX_LINE
    requires OneSegment(seg) && Take(q.line, seg).0
    ensures !Run(q, seg).bad ==> !ChunkLine(q.(line := ""), Take(q.line, seg).1).bad
  {
    RunLineSegment(q, seg);
    if Fits(q.line, seg) {
      TakeFitting(q.line, seg);
    }
  }

  lemma BodyFollowsOn(p: Parse, buf: string, i: nat, j: nat, k: nat, q: Parse, r: Parse)
    requires i <= j <= k <= |buf|
    requires Follows(p, buf[i..j], q)
    requires Run(p, buf[i..j]).bad
             || (!q.bad && BodyPhase(q) && q.recvq != [] && q.contentBytes + (k - j) <= q.contentLength
                 && q.phase.Chunked? && r == BodyGrown(q, buf[j..k]))
    ensures Follows(p, buf[i..k], r)
  {
    if Run(p, buf[i..j]).bad {
      BadStays(p, buf, i, j, k);
    } else {
      BodyFollows(q, buf[j..k], r);
      FollowsOn(p, buf, i, j, k, q, r);
    }
  }

  lemma {:induction false} SegmentUpTo(seg: string)
    requires seg != ""
    requires forall i :: 0 <= i < |seg| - 1 ==> seg[i] != NUL && seg[i] != LF
    ensures OneSegment(seg)
    decreases |seg|
  {
    if |seg| > 1 {
      SegmentUpTo(seg[1..]);
    }
  }

  lemma {:induction false} SegmentToNul(seg: string, k: nat)
    requires k < |seg| && seg[k] == NUL
    requires forall i :: 0 <= i < k ==> seg[i] != LF
    ensures OneSegment(seg)
    decreases |seg|
  {
    if k > 0 {
      SegmentToNul(seg[1..], k - 1);
    }
  }

  class Conn {
    const failureStatus: nat
    const lineBuf: array<char>
    var lineLen: nat
    var state: Phase
    var contentLength: nat
    var contentBytes: nat
    var hasBody: bool
    var isChunked: bool
    var version: nat
    var status: nat
    var recvq: seq<Request>
    var signals: seq<Signal>
    /** Whether the chunk sizes of this reply add up to more than the largest size. */
    ghost var wrapped: bool

    ghost predicate BufferFits()
      reads this
    {
      lineBuf.Length == LINE_BUF_SIZE && lineLen < LINE_BUF_SIZE
    }

    /** What holds between reads of arbitrary bytes, good or bad. */
    ghost predicate Valid()
      reads this
    {
      && BufferFits() && lineLen < MAX_LINE
      && contentLength <= MAX_ULONG && contentBytes <= MAX_ULONG
      && (state.Status? || state.Header? || state.Continue? ==> contentBytes == 0)
      && (state.Header? || state.Continue? ==> hasBody ==> contentLength > 0)
      && (state.Data? ==> contentBytes < contentLength)
      && (state.Chunked? || state.Footer? || state.Done? ==> WithinLength())
      && (state.Done? ==> recvq != [])
    }

    /** No more of a body is counted than was announced. */
    ghost predicate WithinLength()
      reads this
    {
      wrapped || contentBytes <= contentLength
    }

    ghost function Line(): string
      reads this, lineBuf
      requires BufferFits()
    {
      lineBuf[..lineLen]
    }

    /** The connection as the automaton sees it. */
    ghost function View(): Parse
      reads this, lineBuf
      requires BufferFits()
    {
      Parse(state, Line(), contentLength, contentBytes, hasBody, isChunked,
            version, status, failureStatus, recvq, signals, false)
    }

    constructor (failureStatus: nat, calls: seq<Request>)
      ensures Valid() && fresh(lineBuf)
      ensures View() == Parse(Phase.Status, "", MAX_ULONG, 0, false, false, 0, 0, failureStatus, calls, [], false)
    {
      this.failureStatus := failureStatus;
      lineBuf := new char[LINE_BUF_SIZE];
      lineLen := 0;
      state := Phase.Status;
      contentLength, contentBytes := MAX_ULONG, 0;
      hasBody, isChunked := false, false;
      version, status := 0, 0;
      recvq := calls;
      signals := [];
      wrapped := false;
    }

    /** strchr (buf + pos, '\n') on a NUL-terminated buffer, and one past it. */
    static method FindEol(buf: string, pos: nat) returns (eol: nat)
      requires pos < |buf|
      ensures pos < eol <= |buf|
      ensures OneSegment(buf[pos..eol])
      ensures buf[eol - 1] != LF ==> eol == |buf|
    {
      eol := pos;
      while eol < |buf| && buf[eol] != NUL && buf[eol] != LF
        invariant pos <= eol <= |buf|
        invariant forall i :: pos <= i < eol ==> buf[i] != NUL && buf[i] != LF
      {
        eol := eol + 1;
      }
      if eol < |buf| && buf[eol] == LF {
        eol := eol + 1;
        SegmentUpTo(buf[pos..eol]);
      } else {
        if eol < |buf| {
          SegmentToNul(buf[pos..], eol - pos);
        } else {
          SegmentUpTo(buf[pos..]);
        }
        eol := |buf|;
        assert buf[pos..eol] == buf[pos..];
      }
    }

    /** memcpy of `bytes` to the end of the line. */
    method AppendToLine(bytes: string)
      requires BufferFits() && lineLen + |bytes| < LINE_BUF_SIZE
      modifies this`lineLen, lineBuf
      ensures BufferFits() && Line() == old(Line()) + bytes
    {
      forall i | 0 <= i < |bytes| {
        lineBuf[lineLen + i] := bytes[i];
      }
      lineLen := lineLen + |bytes|;
    }

    /** Chops the line end off and terminates the line for C. */
    method TerminateLine()
      requires BufferFits() && lineLen > 0
      modifies this`lineLen, lineBuf
      ensures BufferFits() && Line() == Chop(old(Line()))
    {
      ghost var whole := Line();
      if lineBuf[lineLen - 1] == LF {
        lineLen := lineLen - 1;
        if lineLen > 0 && lineBuf[lineLen - 1] == CR {
          lineLen := lineLen - 1;
        }
      }
      lineBuf[lineLen] := NUL;
      assert Line() == whole[..lineLen];
    }

    /** A line with its LF, or a full buffer, is a finished line. */
    method FinishLine() returns (complete: bool)
      requires BufferFits() && lineLen > 0
      modifies this`lineLen, lineBuf
      ensures BufferFits() && (!complete ==> lineLen < MAX_LINE)
      ensures (complete, Line()) == Finished(old(Line()))
    {
      if lineBuf[lineLen - 1] == LF || lineLen == LINE_BUF_SIZE - 1 {
        TerminateLine();
        return true;
      }
      return false;
    }

    /** Reads an LF-terminated line into the line buffer.  `complete` says whether
        the line is there in full; otherwise it continues in the next read. */
    method GetLine(buf: string, pos: nat) returns (complete: bool, next: nat)
      requires BufferFits() && lineLen < MAX_LINE && pos <= |buf|
      modifies this`lineLen, lineBuf
      ensures BufferFits()
      ensures pos <= next <= |buf|
      ensures pos == |buf| ==> !complete && Line() == old(Line())
      ensures pos < |buf| ==> pos < next && OneSegment(buf[pos..next])
                              && Take(old(Line()), buf[pos..next]) == (complete, Line())
      ensures !complete ==> next == |buf| && lineLen < MAX_LINE
    {
      if pos == |buf| {
        return false, pos;
      }
      var eol := FindEol(buf, pos);
      var toCopy := eol - pos;
      if lineLen + toCopy >= LINE_BUF_SIZE {
        toCopy := LINE_BUF_SIZE - 1 - lineLen;
      }
      ghost var line, seg := Line(), buf[pos..eol];
      assert buf[pos..pos + toCopy] == seg[..toCopy];
      ClipIsCopy(line, seg, toCopy);
      AppendToLine(buf[pos..pos + toCopy]);
      complete := FinishLine();
      next := eol;
    }

    /** A reply is being read for the call at the head of the queue. */
    ghost predicate Reading()
      reads this
    {
      Valid() && recvq != [] && !state.Closing? && !state.Aborted?
    }

    /** Whether the reply has a body, and whether it is a 100 (Continue). */
    method DecideBody(number: nat) returns (isContinue: bool)
      requires recvq != []
      modifies this`hasBody
      ensures hasBody <==> !recvq[0].isHead && !(100 <= number <= 199) && number != 204 && number != 205 && number != 304
      ensures isContinue == (!recvq[0].isHead && number == 100)
    {
      if recvq[0].isHead {
        hasBody := false;
        return false;
      }
      hasBody := true;
      if number / 100 == 1 {
        hasBody := false;
        return number == 100;
      } else if number / 100 == 2 || number / 100 == 3 {
        if number == 204 || number == 205 || number == 304 {
          hasBody := false;
        }
      }
      return false;
    }

    /** Settles what a status line says, the line having been read in full. */
    method TakeStatus(scan: Option<StatusLine>)
      requires BufferFits() && recvq != [] && state.Status? && contentBytes == 0 && contentLength == MAX_ULONG
      modifies this
      ensures Reading() && (state.Header? || state.Continue?) && recvq == old(recvq)
      ensures scan.Some? ==> View() == StatusScanned(old(View()).(line := ""), scan)
    {
      // sscanf leaves this local unset when the line does not match
      var number: nat := *;
      if scan.Some? {
        version := VersionOf(scan.value.major, scan.value.minor);
        status, number := scan.value.status, scan.value.status;
      } else {
        version, status := 0x10000, 599;
      }
      wrapped := false;
      var isContinue := DecideBody(number);
      signals := signals + [RecvStart(recvq[0].id, version, status)];
      state := if isContinue then Phase.Continue else Phase.Header;
      lineLen := 0;
      assert Line() == "";
    }

    method StatusLineEnd()
      requires BufferFits() && recvq != [] && state.Status? && contentBytes == 0 && contentLength == MAX_ULONG
      modifies this
      ensures Reading() && (state.Header? || state.Continue?) && recvq == old(recvq)
      ensures var end := StatusEnd(old(View()).(line := ""), old(Line())); end.bad || View() == end
    {
      var scan := Read(ScanStatusLine, lineBuf[..lineLen]);
      TakeStatus(scan);
    }

    method ParseStatusLine(buf: string, pos: nat) returns (next: nat)
      requires Reading() && state.Status? && pos < |buf|
      modifies this, lineBuf
      ensures Reading() && recvq == old(recvq) && pos < next <= |buf|
      ensures state.Status? ==> next == |buf|
      ensures !state.Done?
      ensures Follows(old(View()), buf[pos..next], View())
    {
      ghost var p := View();
      isChunked := false;
      contentLength := MAX_ULONG;
      var complete;
      complete, next := GetLine(buf, pos);
      assert View() == LineStart(p).(line := Line());
      if complete {
        StatusLineEnd();
      }
      StatusSegment(p, buf[pos..next], View());
    }

    method EndHeaders()
      requires Reading() && (state.Header? || state.Continue?)
      modifies this`state, this`contentLength, this`wrapped
      ensures Reading() && View() == HeadersEnd(old(View()))
    {
      if hasBody {
        if isChunked {
          contentLength := 0;
          wrapped := false;
          state := Phase.Chunked;
        } else {
          state := Phase.Data;
        }
      } else if state.Continue? {
        state := Phase.Header;
      } else {
        state := Phase.Done;
      }
    }

    method TakeHeaderField(hdr: string)
      requires BufferFits()
      modifies this`contentLength, this`hasBody, this`isChunked
      ensures View() == HeaderField(old(View()), hdr)
    {
      if StartsWithNoCase(hdr, CONTENT_LENGTH) {
        contentLength := Read(Decimal, hdr[|CONTENT_LENGTH|..]).value;
        if contentLength == 0 {
          hasBody := false;
        }
      } else if StartsWithNoCase(hdr, TRANSFER_ENCODING) {
        if EqualsNoCase(SkipSpaces(hdr[|TRANSFER_ENCODING|..]), "chunked") {
          isChunked := true;
        }
      }
    }

    method PassHeaderOn()
      requires BufferFits() && recvq != []
      modifies this`signals, this`lineLen
      ensures lineLen == 0
      ensures View() == old(View()).(line := "").Signalled(RecvHeader(recvq[0].id, old(Line())))
    {
      signals := signals + [RecvHeader(recvq[0].id, lineBuf[..lineLen])];
      lineLen := 0;
      assert Line() == "";
    }

    /** A header line, or the empty line behind the headers. */
    method HeaderLineEnd() returns (last: bool)
      requires BufferFits() && recvq != [] && (state.Header? || state.Continue?)
      requires contentBytes == 0 && contentLength <= MAX_ULONG && (hasBody ==> contentLength > 0)
      modifies this
      ensures Reading() && recvq == old(recvq)
      ensures !last ==> state == old(state)
      ensures View() == HeaderLine(old(View()).(line := ""), old(Line()))
    {
      var hdr := lineBuf[..lineLen];
      if |hdr| == 0 {
        EndHeaders();
        return true;
      }
      TakeHeaderField(hdr);
      PassHeaderOn();
      return false;
    }

    method ParseHeaders(buf: string, pos: nat) returns (next: nat)
      requires Reading() && (state.Header? || state.Continue?) && pos < |buf|
      modifies this, lineBuf
      ensures Reading() && recvq == old(recvq) && pos < next <= |buf|
      ensures Follows(old(View()), buf[pos..next], View())
    {
      ghost var p := View();
      next := pos;
      while true
        invariant Reading() && recvq == old(recvq) && pos <= next <= |buf|
        invariant state.Header? || state.Continue?
        invariant Follows(p, buf[pos..next], View())
        decreases |buf| - next
      {
        if next == |buf| {
          break;  // where get_line finds no line
        }
        ghost var q, here := View(), next;
        var more;
        more, next := HeaderSegment(buf, next);
        OtherSegment(q, buf[here..next], View());
        FollowsOn(p, buf, pos, here, next, q, View());
        if !more {
          break;
        }
      }
    }

    /** A round of the loop of parse_headers, on any bytes; more if it is to go on. */
    method HeaderSegment(buf: string, pos: nat) returns (more: bool, next: nat)
      requires Reading() && (state.Header? || state.Continue?) && pos < |buf|
      modifies this, lineBuf
      ensures Reading() && recvq == old(recvq) && pos < next <= |buf| && OneSegment(buf[pos..next])
      ensures View() == HeaderStep(old(View()), buf[pos..next])
      ensures more ==> state == old(state)
    {
      more, next := GetLine(buf, pos);
      if more {
        var last := HeaderLineEnd();
        more := !last;
      }
    }

    method FooterLineEnd() returns (last: bool)
      requires BufferFits() && recvq != [] && contentLength <= MAX_ULONG && contentBytes <= MAX_ULONG && state.Footer? && WithinLength()
      modifies this
      ensures Reading() && recvq == old(recvq)
      ensures !last ==> state == old(state)
      ensures View() == FooterLine(old(View()).(line := ""), old(Line()))
    {
      var hdr := lineBuf[..lineLen];
      if |hdr| == 0 {
        state := Phase.Done;
        return true;
      }
      signals := signals + [RecvFooter(recvq[0].id, hdr)];
      lineLen := 0;
      assert Line() == "";
      return false;
    }

    method ParseFooters(buf: string, pos: nat) returns (next: nat)
      requires Reading() && state.Footer? && pos < |buf|
      modifies this, lineBuf
      ensures Reading() && recvq == old(recvq) && pos < next <= |buf|
      ensures Follows(old(View()), buf[pos..next], View())
    {
      ghost var p := View();
      next := pos;
      while true
        invariant Reading() && recvq == old(recvq) && pos <= next <= |buf| && state.Footer?
        invariant Follows(p, buf[pos..next], View())
        decreases |buf| - next
      {
        ghost var q, here := View(), next;
        var complete;
        complete, next := GetLine(buf, next);
        if !complete {
          if here < |buf| {
            OtherSegment(q, buf[here..next], View());
          }
          FollowsOn(p, buf, pos, here, next, q, View());
          break;
        }
        var last := FooterLineEnd();
        OtherSegment(q, buf[here..next], View());
        FollowsOn(p, buf, pos, here, next, q, View());
        if last {
          break;
        }
      }
    }

    /** Hands the next stretch of body on; size_t arithmetic wraps. */
    method ParseData(buf: string, pos: nat) returns (full: bool, next: nat)
      requires Reading() && pos <= |buf|
      modifies this`contentBytes, this`signals
      ensures BufferFits() && contentBytes <= MAX_ULONG
      ensures wrapped || old(contentBytes) <= contentLength ==> WithinLength()
      ensures pos <= next <= |buf| && (!full ==> next == |buf|)
      ensures old(contentBytes) < contentLength ==>
                && (pos < |buf| ==> pos < next)
                && contentBytes <= contentLength && full == (contentBytes == contentLength)
                && View() == BodyGrown(old(View()), buf[pos..next])
    {
      var bytesNeeded := ToUlong(contentLength - contentBytes);
      var bufLen := |buf| - pos;
      if bufLen > bytesNeeded {
        bufLen := bytesNeeded;
      }
      signals := signals + DataSignals(recvq[0].id, buf[pos..pos + bufLen]);
      contentBytes := ToUlong(contentBytes + bufLen);
      next := pos + bufLen;
      full := bufLen == bytesNeeded;
    }

    /** What strtoul made of a chunk line; `sized` if it announced a chunk. */
    method TakeChunkSize(chunk: Number) returns (sized: bool)
      requires BufferFits() && contentLength <= MAX_ULONG && state.Chunked?
      modifies this`lineLen, this`state, this`contentLength, this`wrapped
      ensures lineLen == 0 && contentLength <= MAX_ULONG
      ensures wrapped == (old(wrapped) || (sized && old(contentLength) + chunk.value > MAX_ULONG))
      ensures old(WithinLength()) ==> WithinLength()
      ensures state.Chunked? || (state.Footer? && !sized)
      ensures var end := ChunkScanned(old(View()).(line := ""), chunk);
              end.bad || (View() == end && (sized ==> contentLength > old(contentLength)))
    {
      lineLen := 0;
      assert Line() == "";
      if chunk.outOfRange || !chunk.hasDigits {
        return false;
      }
      if chunk.value == 0 {
        state := Phase.Footer;
        return false;
      }
      wrapped := wrapped || contentLength + chunk.value > MAX_ULONG;
      contentLength := ToUlong(contentLength + chunk.value);
      return true;
    }

    /** A complete line where a chunk size is due. */
    method ChunkLineEnd() returns (sized: bool)
      requires BufferFits() && contentLength <= MAX_ULONG && contentBytes <= MAX_ULONG
      requires recvq != [] && state.Chunked? && WithinLength()
      modifies this
      ensures Reading() && recvq == old(recvq) && contentBytes == old(contentBytes)
      ensures state.Chunked? || (state.Footer? && !sized)
      ensures var end := ChunkLine(old(View()).(line := ""), old(Line()));
              end.bad || (View() == end && (sized ==> contentLength > old(contentLength)))
    {
      if lineLen == 0 {
        return false;
      }
      var chunk := Read(Hexadecimal, lineBuf[..lineLen]);
      sized := TakeChunkSize(chunk);
    }

    /** Reads on in the line where a chunk size is due. */
    method TakeChunkLine(buf: string, pos: nat) returns (sized: bool, next: nat)
      requires Reading() && state.Chunked? && contentBytes >= contentLength && pos < |buf|
      modifies this, lineBuf
      ensures Reading() && recvq == old(recvq) && pos < next <= |buf|
      ensures state.Chunked? || (state.Footer? && !sized)
      ensures Follows(old(View()), buf[pos..next], View())
      ensures sized ==> Sized(old(View()), buf[pos..next], View())
    {
      ghost var q := View();
      var complete;
      complete, next := GetLine(buf, pos);
      sized := false;
      if complete {
        sized := ChunkLineEnd();
      }
      OtherSegment(q, buf[pos..next], View());
      if sized {
        ChunkSized(q, buf[pos..next], View());
      }
    }

    method ParseSizedBody(buf: string, pos: nat) returns (next: nat)
      requires Reading() && state.Data? && pos < |buf|
      modifies this
      ensures Reading() && recvq == old(recvq) && pos < next <= |buf|
      ensures state.Done? || (state.Data? && next == |buf|)
      ensures Follows(old(View()), buf[pos..next], View())
    {
      ghost var q := View();
      var full;
      full, next := ParseData(buf, pos);
      if full {
        state := Phase.Done;
      }
      BodyFollows(q, buf[pos..next], View());
    }

    /** The part of a round of xfer_chunked that looks for the size of the next chunk. */
    method NextChunk(buf: string, pos: nat, ghost start: nat, ghost p: Parse) returns (sized: bool, next: nat)
      requires Reading() && state.Chunked? && contentBytes >= contentLength && start <= pos < |buf|
      requires Sound(p) ==> Follows(p, buf[start..pos], View())
      modifies this, lineBuf
      ensures Reading() && recvq == old(recvq) && pos < next <= |buf|
      ensures state.Chunked? || (state.Footer? && !sized)
      ensures Sound(p) ==> Follows(p, buf[start..next], View())
      ensures Sound(p) && sized ==> Sized(p, buf[start..next], View())
    {
      ghost var q := View();
      sized, next := TakeChunkLine(buf, pos);
      if Sound(p) {
        FollowsOn(p, buf, start, pos, next, q, View());
        if sized { SizedOn(p, buf, start, pos, next, q, View()); }
      }
    }

    method XferChunked(buf: string, pos: nat) returns (next: nat)
      requires Reading() && state.Chunked? && pos < |buf|
      modifies this, lineBuf
      ensures Reading() && recvq == old(recvq) && pos < next <= |buf|
      ensures state.Footer? || (state.Chunked? && next == |buf|)
      ensures Sound(old(View())) ==> Follows(old(View()), buf[pos..next], View())
    {
      ghost var p := View();
      next := pos;
      while next < |buf|
        invariant Reading() && recvq == old(recvq) && pos <= next <= |buf| && state.Chunked?
        invariant Sound(p) ==> Follows(p, buf[pos..next], View())
        decreases |buf| - next
      {
        if contentBytes >= contentLength {
          var sized;
          sized, next := NextChunk(buf, next, pos, p);
          if state.Footer? {
            return;
          }
          if !sized {
            continue;
          }
        }
        ghost var q, here := View(), next;
        var full;
        full, next := ParseData(buf, next);
        if Sound(p) { BodyFollowsOn(p, buf, pos, here, next, q, View()); }
      }
    }

    method HttpProcessReplyBytes(buf: string, pos: nat) returns (next: nat)
      requires Reading() && !state.Done? && pos < |buf|
      modifies this, lineBuf
      ensures Reading() && recvq == old(recvq) && pos < next <= |buf|
      ensures !state.Done? ==> next == |buf|
      ensures Sound(old(View())) ==> Follows(old(View()), buf[pos..next], View())
    {
      ghost var p := View();
      next := pos;
      while next < |buf| && !state.Done?
        invariant Reading() && recvq == old(recvq) && pos <= next <= |buf|
        invariant next == pos ==> !state.Done?
        invariant Sound(p) ==> Follows(p, buf[pos..next], View())
        decreases |buf| - next
      {
        ghost var q, here := View(), next;
        if state.Status? {
          next := ParseStatusLine(buf, next);
        } else if state.Header? || state.Continue? {
          next := ParseHeaders(buf, next);
        } else if state.Footer? {
          next := ParseFooters(buf, next);
        } else if state.Data? {
          next := ParseSizedBody(buf, next);
        } else {
          next := XferChunked(buf, next);
        }
        if Sound(p) { FollowsOnSound(p, buf, pos, here, next, q, View()); }
      }
    }

    /** RECV_STOP for the reply at the head of the queue.  The session's handler
        takes the failure status for a failed session, closing the connection. */
    method RecvDone()
      requires Reading() && state.Done?
      modifies this
      ensures BufferFits() && View() == Popped(old(View()))
      ensures signals == old(signals) + [RecvStop(old(recvq[0].id))]
      ensures recvq == if failureStatus != 0 && old(status) == failureStatus then [] else old(recvq[1..])
      ensures state == if failureStatus != 0 && old(status) == failureStatus then Phase.Closing else Phase.Done
    {
      var failed := failureStatus != 0 && status == failureStatus;
      signals := signals + [RecvStop(recvq[0].id)];
      recvq := recvq[1..];
      contentBytes, version, status := 0, 0, 0;  // of the next call, a fresh one
      if failed {
        state := Phase.Closing;
        recvq := [];
      }
    }

    method NextReply()
      requires Reading() && state.Done?
      modifies this
      ensures Valid() && !state.Done? && View() == Settle(old(View()))
    {
      RecvDone();
      if !state.Closing? {
        state := Phase.Status;
      }
    }

    /** A read that returns 0. */
    method ReadEof()
      requires Valid() && (state.Data? ==> recvq != [])
      modifies this
      ensures BufferFits() && View() == AtEof(old(View()))
      ensures !old(state.Data?) ==> state.Closing? && recvq == [] && signals == old(signals)
      ensures old(state.Data?) ==> signals == old(signals) + [RecvStop(old(recvq[0].id))]
    {
      if state.Data? {
        state := Phase.Done;
        RecvDone();
      } else {
        state := Phase.Closing;
        recvq := [];
      }
    }

    /** One read's worth of replies.  Every byte is used unless the connection is
        closed, or a byte comes without a call waiting for it. */
    method DoRecv(buf: string) returns (used: nat)
      requires Valid() && buf != "" && !state.Done? && !state.Closing? && !state.Aborted?
      modifies this, lineBuf
      ensures Valid() && !state.Done?
      ensures used <= |buf| && (used < |buf| ==> state.Closing? || state.Aborted?)
      ensures Sound(old(View())) ==> Reaches(old(View()), buf, View())
    {
      ghost var p := View();
      used := 0;
      while used < |buf|
        invariant Valid() && used <= |buf| && !state.Done? && !state.Closing? && !state.Aborted?
        invariant Sound(p) ==> Reaches(p, buf[..used], View())
        decreases |buf| - used
      {
        ghost var q, here := View(), used;
        if recvq == [] {
          state := Phase.Aborted;
          if Sound(p) { ReachesAbort(p, buf, here, q); }
          return;
        }
        used := HttpProcessReplyBytes(buf, used);
        ghost var r := View();
        if state.Done? {
          NextReply();
        }
        if Sound(p) { ReachesOnSound(p, buf, here, used, q, r); }
        if state.Closing? {
          if Sound(p) { ReachesClose(p, buf, used, View()); }
          return;
        }
      }
      assert buf[..used] == buf;
    }

    /** The event loop: any number of reads, until the connection is gone. */
    method ReceiveReads(cuts: seq<string>)
      requires Valid() && !state.Done? && forall i :: 0 <= i < |cuts| ==> cuts[i] != ""
      modifies this, lineBuf
      ensures Valid()
      ensures Sound(old(View())) ==> Reaches(old(View()), Concat(cuts), View())
    {
      ghost var p := View();
      var i := 0;
      while i < |cuts| && !state.Closing? && !state.Aborted?
        invariant 0 <= i <= |cuts| && Valid() && !state.Done?
        invariant Sound(p) ==> Reaches(p, Concat(cuts[..i]), View())
      {
        ghost var q := View();
        var _ := DoRecv(cuts[i]);
        if Sound(p) { ReachesNextRead(p, cuts, i, q, View()); }
        i := i + 1;
      }
      if Sound(p) { ReachesRest(p, cuts, i, View()); }
    }
  }
}

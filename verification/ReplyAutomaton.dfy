/** The meaning of a reply stream, one byte at a time.
    A `Parse` value is everything the parser knows between two bytes; `Step`
    takes the next byte and `Run` a whole stream.  Nothing here knows how the
    bytes were cut into reads: that is what ReplyParser is proved against. */
module ReplyAutomaton {
  import opened Shared
  import opened CString

  /** The reply states of Conn_State, closing, and a failed assertion. */
  datatype Phase =
    | Status | Header | Continue | Data | Chunked | Footer | Done
    | Closing | Aborted

  /** A call waiting for its reply; only its method's being HEAD matters. */
  datatype Request = Request(id: nat, isHead: bool)

  /** What the parser tells the rest of the program.  Body bytes are signalled
      one by one, so that a log does not record how they were grouped. */
  datatype Signal =
    | RecvStart(id: nat, version: nat, status: nat)
    | RecvHeader(id: nat, line: string)
    | RecvData(id: nat, byte: char)
    | RecvFooter(id: nat, line: string)
    | RecvStop(id: nat)

  /** `bad` marks streams on which the C code has no one meaning: a line that
      does not fit, a NUL inside a line, a status line that sscanf rejects (its
      status is then an uninitialised variable), a chunk sum over SIZE_MAX. */
  datatype Parse = Parse(
    phase: Phase, line: string,
    contentLength: nat, contentBytes: nat, hasBody: bool, isChunked: bool,
    version: nat, status: nat,
    failureStatus: nat, recvq: seq<Request>, signals: seq<Signal>, bad: bool)
  {
    function Id(): nat { if recvq == [] then 0 else recvq[0].id }

    function Signalled(s: Signal): Parse { this.(signals := signals + [s]) }
  }

  /** Longest text the 1024-byte line buffer can hold. */
  const MAX_LINE: nat := 1023

  predicate LinePhase(p: Parse) {
    p.phase.Status? || p.phase.Header? || p.phase.Continue? || p.phase.Footer?
    || (p.phase.Chunked? && p.contentBytes >= p.contentLength)
  }

  /** The line without its LF and without a CR in front of it. */
  function Chop(s: string): string {
    var t := if s != "" && s[|s| - 1] == LF then s[..|s| - 1] else s;
    if |t| < |s| && t != "" && t[|t| - 1] == CR then t[..|t| - 1] else t
  }

  predicate StatusHasBody(status: nat) {
    !(100 <= status < 200) && status != 204 && status != 205 && status != 304
  }

  /** The version as an unsigned int. */
  function VersionOf(major: nat, minor: nat): nat {
    ToUint(0x10000 * major + minor)
  }

  function StatusEnd(p: Parse, line: string): Parse {
    StatusScanned(p, Read(ScanStatusLine, line))
  }

  function StatusScanned(p: Parse, scan: Option<StatusLine>): Parse {
    match scan
    case None => p.(bad := true)
    case Some(v) =>
      var isHead := p.recvq != [] && p.recvq[0].isHead;
      var version := VersionOf(v.major, v.minor);
      p.(version := version, status := v.status,
         hasBody := !isHead && StatusHasBody(v.status),
         phase := if !isHead && v.status == 100 then Continue else Header)
       .Signalled(RecvStart(p.Id(), version, v.status))
  }

  /** The end of the headers decides how the body is framed. */
  function HeadersEnd(p: Parse): Parse {
    if p.hasBody && p.isChunked then p.(phase := Chunked, contentLength := 0)
    else if p.hasBody then p.(phase := Data)
    else if p.phase.Continue? then p.(phase := Header)
    else p.(phase := Done)
  }

  const CONTENT_LENGTH := "content-length:"
  const TRANSFER_ENCODING := "transfer-encoding:"

  function HeaderField(p: Parse, line: string): Parse {
    if StartsWithNoCase(line, CONTENT_LENGTH) then
      var n := Read(Decimal, line[|CONTENT_LENGTH|..]).value;
      p.(contentLength := n, hasBody := p.hasBody && n != 0)
    else if StartsWithNoCase(line, TRANSFER_ENCODING)
            && EqualsNoCase(SkipSpaces(line[|TRANSFER_ENCODING|..]), "chunked") then
      p.(isChunked := true)
    else p
  }

  function HeaderLine(p: Parse, line: string): Parse {
    if line == "" then HeadersEnd(p) else HeaderField(p, line).Signalled(RecvHeader(p.Id(), line))
  }

  function FooterLine(p: Parse, line: string): Parse {
    if line == "" then p.(phase := Done) else p.Signalled(RecvFooter(p.Id(), line))
  }

  function ChunkLine(p: Parse, line: string): Parse {
    if line == "" then p else ChunkScanned(p, Read(Hexadecimal, line))
  }

  function ChunkScanned(p: Parse, n: Number): Parse {
    if n.outOfRange || !n.hasDigits then p
    else if n.value == 0 then p.(phase := Footer)
    else if p.contentLength + n.value > MAX_ULONG then p.(bad := true)
    else p.(contentLength := p.contentLength + n.value)
  }

  /** What a complete line does, the line buffer already being empty. */
  function LineEnd(p: Parse, line: string): Parse {
    match p.phase
    case Status => StatusEnd(p, line)
    case Header => HeaderLine(p, line)
    case Continue => HeaderLine(p, line)
    case Footer => FooterLine(p, line)
    case _ => ChunkLine(p, line)
  }

  /** Before a status line nothing is known about the body. */
  function LineStart(p: Parse): Parse {
    if p.phase.Status? then p.(isChunked := false, contentLength := MAX_ULONG) else p
  }

  function LineByte(p: Parse, b: char): Parse {
    var line := p.line + [b];
    if b == NUL then p.(bad := true)
    else if b == LF then LineEnd(LineStart(p).(line := ""), Chop(line))
    else if |line| >= MAX_LINE then p.(bad := true)
    else LineStart(p).(line := line)
  }

  function BodyByte(p: Parse, b: char): Parse {
    var q := p.(contentBytes := p.contentBytes + 1).Signalled(RecvData(p.Id(), b));
    if q.phase.Data? && q.contentBytes == q.contentLength then q.(phase := Done) else q
  }

  /** A finished reply leaves the queue.  A reply with the failure status fails
      its session, which closes the connection and drops the calls behind it. */
  function Popped(p: Parse): Parse
    requires p.recvq != []
  {
    var q := p.(recvq := p.recvq[1..], contentBytes := 0, version := 0, status := 0)
              .Signalled(RecvStop(p.Id()));
    if p.failureStatus != 0 && p.status == p.failureStatus then q.(phase := Closing, recvq := []) else q
  }

  function Finish(p: Parse): Parse
    requires p.recvq != []
  {
    var q := Popped(p);
    if q.phase.Closing? then q else q.(phase := Status)
  }

  /** The server closed its side: that ends a body read to the end of the
      connection, and fails the connection anywhere else. */
  function AtEof(p: Parse): Parse {
    if p.phase.Data? && p.recvq != [] then Popped(p.(phase := Done))
    else p.(phase := Closing, recvq := [])
  }

  function Settle(p: Parse): Parse {
    if p.phase.Done? && p.recvq != [] then Finish(p) else p
  }

  function SettledStep(p: Parse, b: char): Parse {
    if p.phase.Closing? || p.phase.Aborted? then p
    else if p.recvq == [] then p.(phase := Aborted)
    else if LinePhase(p) then LineByte(p, b)
    else BodyByte(p, b)
  }

  function Step(p: Parse, b: char): Parse {
    if p.bad then p else SettledStep(Settle(p), b)
  }

  function Fold<S>(f: (S, char) -> S, s: S, bytes: string): S
    decreases |bytes|
  {
    if bytes == "" then s else Fold(f, f(s, bytes[0]), bytes[1..])
  }

  lemma {:induction false} FoldConcat<S>(f: (S, char) -> S, s: S, a: string, b: string)
    ensures Fold(f, s, a + b) == Fold(f, Fold(f, s, a), b)
    decreases |a|
  {
    if a == "" {
      assert a + b == b;
    } else {
      assert (a + b)[0] == a[0] && (a + b)[1..] == a[1..] + b;
      FoldConcat(f, f(s, a[0]), a[1..], b);
    }
  }

  function Run(p: Parse, bytes: string): Parse {
    Fold(Step, p, bytes)
  }

  lemma RunConcat(p: Parse, a: string, b: string)
    ensures Run(p, a + b) == Run(Run(p, a), b)
  {
    FoldConcat(Step, p, a, b);
  }

  lemma RunCons(p: Parse, b: char, tail: string)
    ensures Run(p, [b] + tail) == Run(Step(p, b), tail)
  {
    assert ([b] + tail)[1..] == tail;
  }

  lemma {:induction false} RunFromBad(p: Parse, bytes: string)
    requires p.bad
    ensures Run(p, bytes) == p
    decreases |bytes|
  {
    if bytes != "" {
      assert bytes == [bytes[0]] + bytes[1..];
      RunCons(p, bytes[0], bytes[1..]);
      RunFromBad(p, bytes[1..]);
    }
  }

  /** A stream that stays good is good at every cut. */
  lemma GoodPrefix(p: Parse, a: string, b: string)
    requires !Run(p, a + b).bad
    ensures !Run(p, a).bad
  {
    RunConcat(p, a, b);
    if Run(p, a).bad {
      RunFromBad(Run(p, a), b);
    }
  }

  lemma {:induction false} RunStuck(p: Parse, bytes: string)
    requires p.phase.Closing? || p.phase.Aborted?
    ensures Run(p, bytes) == p
    decreases |bytes|
  {
    if bytes != "" {
      assert bytes == [bytes[0]] + bytes[1..];
      RunCons(p, bytes[0], bytes[1..]);
      RunStuck(p, bytes[1..]);
    }
  }

  /** Settling between two reads makes no difference to the second. */
  lemma RunSettled(p: Parse, bytes: string)
    requires !p.bad && bytes != ""
    ensures Run(Settle(p), bytes) == Run(p, bytes)
  {
    SettleTwice(p);
    assert bytes == [bytes[0]] + bytes[1..];
    RunCons(p, bytes[0], bytes[1..]);
    RunCons(Settle(p), bytes[0], bytes[1..]);
    assert Step(Settle(p), bytes[0]) == Step(p, bytes[0]);
  }

  lemma SettleTwice(p: Parse)
    ensures Settle(Settle(p)) == Settle(p) && Settle(p).bad == p.bad
  {
  }

  // ---- what the line- and block-oriented code needs to know about Run ----

  /** A stretch that strchr takes for one line: no LF except as its last byte,
      unless a NUL comes first, behind which strchr cannot see. */
  predicate OneSegment(seg: string) {
    seg != "" && (|seg| == 1 || seg[0] == NUL || (seg[0] != LF && OneSegment(seg[1..])))
  }

  predicate Complete(seg: string) {
    seg != "" && seg[|seg| - 1] == LF
  }

  predicate Fits(line: string, seg: string) {
    NUL !in seg && |line + seg| <= (if Complete(seg) then MAX_LINE else MAX_LINE - 1)
  }

  function LineSegment(p: Parse, seg: string): Parse {
    if Complete(seg) then LineEnd(LineStart(p).(line := ""), Chop(p.line + seg))
    else LineStart(p).(line := p.line + seg)
  }

  lemma StepInLine(p: Parse, b: char)
    requires !p.bad && LinePhase(p) && p.recvq != []
    ensures Step(p, b) == LineByte(p, b)
  {
  }

  /** A byte inside a line either grows the line or spoils the stream. */
  lemma LineByteGrows(p: Parse, b: char, tail: string)
    requires !p.bad && LinePhase(p) && |p.line| < MAX_LINE && b != NUL && b != LF && tail != ""
    ensures |p.line| + 1 >= MAX_LINE ==> LineByte(p, b).bad && !Fits(p.line, [b] + tail)
    ensures |p.line| + 1 < MAX_LINE ==>
              var q := LineByte(p, b);
              && q == LineStart(p).(line := p.line + [b]) && LinePhase(q)
              && LineSegment(q, tail) == LineSegment(p, [b] + tail)
              && Fits(q.line, tail) == Fits(p.line, [b] + tail)
  {
    var seg := [b] + tail;
    assert Complete(tail) == Complete(seg);
    assert p.line + [b] + tail == p.line + seg;
    assert NUL in seg <==> NUL in tail;
  }

  /** Reading a stretch of one line at once does what its bytes do one by one. */
  lemma {:induction false} RunLineSegment(p: Parse, seg: string)
    requires !p.bad && LinePhase(p) && p.recvq != [] && |p.line| < MAX_LINE
    requires OneSegment(seg)
    ensures !Run(p, seg).bad ==> Fits(p.line, seg)
    ensures Fits(p.line, seg) ==> Run(p, seg) == LineSegment(p, seg)
    decreases |seg|
  {
    var b, tail := seg[0], seg[1..];
    assert seg == [b] + tail;
    RunCons(p, b, tail);
    StepInLine(p, b);
    var q := LineByte(p, b);
    if b == NUL {
      RunFromBad(q, tail);
    } else if tail == "" {
      assert p.line + seg == p.line + [b];
    } else {
      LineByteGrows(p, b, tail);
      if q.bad {
        RunFromBad(q, tail);
      } else {
        RunLineSegment(q, tail);
      }
    }
  }

  function BodyGrown(p: Parse, seg: string): Parse {
    p.(contentBytes := p.contentBytes + |seg|, signals := p.signals + DataSignals(p.Id(), seg))
  }

  function BodySegment(p: Parse, seg: string): Parse {
    var q := BodyGrown(p, seg);
    if q.phase.Data? && q.contentBytes == q.contentLength then q.(phase := Done) else q
  }

  function DataSignals(id: nat, body: string): (s: seq<Signal>)
    ensures |s| == |body|
    ensures forall i :: 0 <= i < |s| ==> s[i] == RecvData(id, body[i])
  {
    if body == "" then [] else [RecvData(id, body[0])] + DataSignals(id, body[1..])
  }

  predicate BodyPhase(p: Parse) {
    (p.phase.Data? || p.phase.Chunked?) && p.contentBytes < p.contentLength
  }

  lemma StepInBody(p: Parse, b: char)
    requires !p.bad && BodyPhase(p) && p.recvq != []
    ensures Step(p, b) == BodyByte(p, b)
  {
  }

  lemma DataSignalsCons(log: seq<Signal>, id: nat, b: char, tail: string)
    ensures log + DataSignals(id, [b] + tail) == log + [RecvData(id, b)] + DataSignals(id, tail)
  {
    assert ([b] + tail)[1..] == tail;
  }

  lemma BodySegmentCons(p: Parse, b: char, tail: string)
    requires BodyPhase(p) && p.contentBytes + 1 < p.contentLength
    ensures BodySegment(BodyByte(p, b), tail) == BodySegment(p, [b] + tail)
  {
    DataSignalsCons(p.signals, p.Id(), b, tail);
  }

  /** Taking a stretch of body at once does what its bytes do one by one. */
  lemma {:induction false} RunBodySegment(p: Parse, seg: string)
    requires !p.bad && BodyPhase(p) && p.recvq != []
    requires seg != "" && p.contentBytes + |seg| <= p.contentLength
    ensures Run(p, seg) == BodySegment(p, seg)
    decreases |seg|
  {
    var tail := seg[1..];
    assert seg == [seg[0]] + tail;
    RunCons(p, seg[0], tail);
    StepInBody(p, seg[0]);
    if tail != "" {
      RunBodySegment(BodyByte(p, seg[0]), tail);
      BodySegmentCons(p, seg[0], tail);
    } else {
      assert DataSignals(p.Id(), seg) == [RecvData(p.Id(), seg[0])];
    }
  }

  // ---- invariants of every run ----

  /** What holds between any two bytes of a good stream. */
  predicate Sound(p: Parse) {
    && |p.line| < MAX_LINE
    && p.contentLength <= MAX_ULONG
    && (p.line != "" ==> LinePhase(p) || p.phase.Aborted?)
    && (p.phase.Status? ==> p.contentBytes == 0)
    && (p.phase.Header? || p.phase.Continue? ==>
          p.contentBytes == 0 && (p.hasBody ==> p.contentLength > 0))
    && (p.phase.Data? ==> p.contentBytes < p.contentLength)
    && (p.phase.Chunked? || p.phase.Done? || p.phase.Footer? ==> p.contentBytes <= p.contentLength)
    && (p.phase.Done? ==> p.recvq != [])
  }

  lemma StatusEndSound(p: Parse, line: string)
    requires Sound(p) && p.phase.Status? && p.line == "" && p.contentLength > 0
    ensures Sound(StatusEnd(p, line))
  {
  }

  lemma HeaderLineSound(p: Parse, line: string)
    requires Sound(p) && (p.phase.Header? || p.phase.Continue?) && p.line == "" && p.recvq != []
    ensures Sound(HeaderLine(p, line))
  {
  }

  lemma ChunkScannedSound(p: Parse, n: Number)
    requires Sound(p) && p.phase.Chunked? && p.line == ""
    ensures ChunkScanned(p, n).bad || Sound(ChunkScanned(p, n))
  {
  }

  lemma ChunkLineSound(p: Parse, line: string)
    requires Sound(p) && p.phase.Chunked? && p.line == ""
    ensures ChunkLine(p, line).bad || Sound(ChunkLine(p, line))
  {
    if line != "" {
      ChunkScannedSound(p, Read(Hexadecimal, line));
    }
  }

  lemma LineEndSound(p: Parse, line: string)
    requires Sound(p) && LinePhase(p) && p.line == "" && p.recvq != []
    requires p.phase.Status? ==> p.contentLength > 0
    ensures LineEnd(p, line).bad || Sound(LineEnd(p, line))
  {
    match p.phase
    case Status => StatusEndSound(p, line);
    case Header => HeaderLineSound(p, line);
    case Continue => HeaderLineSound(p, line);
    case Footer =>
    case _ => ChunkLineSound(p, line);
  }

  lemma LineByteSound(p: Parse, b: char)
    requires Sound(p) && LinePhase(p) && p.recvq != []
    ensures LineByte(p, b).bad || Sound(LineByte(p, b))
  {
    if b == LF {
      LineEndSound(LineStart(p).(line := ""), Chop(p.line + [b]));
    }
  }

  lemma BodyByteSound(p: Parse, b: char)
    requires Sound(p) && BodyPhase(p) && p.recvq != []
    ensures Sound(BodyByte(p, b))
  {
  }

  lemma SettleSound(p: Parse)
    requires Sound(p)
    ensures Sound(Settle(p)) && !Settle(p).phase.Done?
  {
  }

  lemma StepSound(p: Parse, b: char)
    requires Sound(p)
    ensures Step(p, b).bad || Sound(Step(p, b))
  {
    var q := Settle(p);
    SettleSound(p);
    if q.phase.Closing? || q.phase.Aborted? || q.recvq == [] {
    } else if LinePhase(q) {
      LineByteSound(q, b);
    } else {
      BodyByteSound(q, b);
    }
  }

  lemma {:induction false} RunSound(p: Parse, bytes: string)
    requires Sound(p)
    ensures Run(p, bytes).bad || Sound(Run(p, bytes))
    decreases |bytes|
  {
    if bytes != "" {
      assert bytes == [bytes[0]] + bytes[1..];
      RunCons(p, bytes[0], bytes[1..]);
      StepSound(p, bytes[0]);
      if Step(p, bytes[0]).bad {
        RunFromBad(Step(p, bytes[0]), bytes[1..]);
      } else {
        RunSound(Step(p, bytes[0]), bytes[1..]);
      }
    }
  }
}

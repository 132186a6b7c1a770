/** The edges of a stream of replies: versions, the status that ends a session, bytes nobody
    waits for, a close in the middle, bare line feeds and chunk lines without a size. */
module ReplyEdges {
  import opened CString
  import opened ReplyAutomaton
  import opened ReplyFraming

  /** The major number is put above the minor one in an unsigned int. */
  lemma VersionRead(p: Parse, r: Reply)
    requires Ready(p) && p.recvq != [] && StatusWritten(r)
    ensures var major, minor, q := ValueOf(r.major, 10), ValueOf(r.minor, 10), Run(p, StatusText(r) + CRLF);
            && q.version == (0x1_0000 * major + minor) % 0x1_0000_0000
            && (major < 0x1_0000 && minor < 0x1_0000 ==> q.version / 0x1_0000 == major && q.version % 0x1_0000 == minor)
  {
    StatusDecidesBody(p, r);
    ToUintIsModulo(0x1_0000 * ValueOf(r.major, 10) + ValueOf(r.minor, 10));
  }

  lemma ToUintIsModulo(n: nat)
    ensures ToUint(n) == n % 0x1_0000_0000
  {
  }

  /** A reply with the failure status is the last one: it is signalled to its end, the calls
      behind it are dropped, and whatever else comes is not looked at. */
  lemma FailureStatusCloses(p: Parse, r: Reply, rest: string)
    requires Ready(p) && p.recvq != [] && ReplyLegal(r, p.recvq[0].isHead)
    requires p.failureStatus != 0 && r.Status() == p.failureStatus
    ensures var q := Settle(Run(p, ReplyText(r) + rest));
            q.phase.Closing? && q.recvq == [] && q.signals == p.signals + ReplySignals(r, p.Id())
  {
    var q := Run(p, ReplyText(r));
    RunReply(p, r);
    RunConcat(p, ReplyText(r), rest);
    SignalsOfReply(p, r, q);
    if rest != "" {
      RunSettled(q, rest);
      RunStuck(Settle(q), rest);
    }
  }

  lemma SignalsOfReply(p: Parse, r: Reply, q: Parse)
    requires p.recvq != [] && HasRead(p, r, q)
    ensures q.signals + [RecvStop(p.Id())] == p.signals + ReplySignals(r, p.Id())
  {
    var log, start, id := p.signals, [RecvStart(p.Id(), r.Version(), r.Status())], p.Id();
    var headers, data := HeaderSignals(id, Fields(r)), DataSignals(id, BodyData(r.body));
    var footers := FooterSignals(id, Footers(r.body));
    AppendAssoc(log, start, headers);
    AppendAssoc(log, start + headers, data);
    AppendAssoc(log, start + headers + data, footers);
    AppendAssoc(log, start + headers + data + footers, [RecvStop(id)]);
  }

  /** So is one whose body the server's close ends. */
  lemma FailureStatusAtClose(p: Parse, r: Reply, data: string)
    requires Ready(p) && p.recvq != [] && |data| < 0xffff_ffff_ffff_ffff
    requires StatusLegal(r) && !NoBody(r.Status()) && !p.recvq[0].isHead
    requires Fieldlike(r.before) && NoFraming(r.before)
    requires p.failureStatus != 0 && r.Status() == p.failureStatus
    ensures var q := AtEof(Run(p, HeadText(r, r.before) + data));
            && q.phase.Closing? && q.recvq == []
            && q.signals == p.signals + [RecvStart(p.Id(), r.Version(), r.Status())] + HeaderSignals(p.Id(), r.before)
                            + DataSignals(p.Id(), data) + [RecvStop(p.Id())]
  {
    var head := HeadText(r, r.before);
    HeadReadsToClose(p, r);
    RunConcat(p, head, data);
    CloseAtFailureStatus(Run(p, head), data);
  }

  lemma CloseAtFailureStatus(h: Parse, data: string)
    requires !h.bad && h.phase.Data? && h.recvq != [] && h.contentBytes == 0 && |data| < h.contentLength
    requires h.failureStatus != 0 && h.status == h.failureStatus
    ensures var q := AtEof(Run(h, data));
            && q.phase.Closing? && q.recvq == []
            && q.signals == h.signals + DataSignals(h.Id(), data) + [RecvStop(h.Id())]
  {
    if data != "" {
      RunBodySegment(h, data);
    } else {
      assert h.signals + [] == h.signals;
    }
  }

  /** A close anywhere but in a body drops the calls that wait, and signals nothing. */
  lemma CloseDropsCalls(p: Parse, bytes: string)
    requires !Run(p, bytes).phase.Data?
    ensures var q := AtEof(Run(p, bytes));
            q.phase.Closing? && q.recvq == [] && q.signals == Run(p, bytes).signals
  {
  }

  /** Bytes of a reply that no call waits for fail an assertion. */
  lemma NobodyWaiting(p: Parse, bytes: string)
    requires !p.bad && p.recvq == [] && !p.phase.Closing? && bytes != ""
    ensures Run(p, bytes) == p.(phase := Aborted)
  {
    assert bytes == [bytes[0]] + bytes[1..];
    RunCons(p, bytes[0], bytes[1..]);
    RunStuck(p.(phase := Aborted), bytes[1..]);
  }

  /** A line feed ends a line with or without a carriage return in front of it. */
  lemma BareLineFeed(p: Parse, line: string)
    requires !p.bad && LinePhase(p) && p.recvq != [] && p.line == "" && Plain(line)
    requires line == "" || line[|line| - 1] != '\r'
    ensures Run(p, line + ['\n']) == Run(p, line + ['\r', '\n'])
  {
    RunLine(p, line);
    RunBareLine(p, line);
  }

  lemma RunBareLine(p: Parse, line: string)
    requires !p.bad && LinePhase(p) && p.recvq != [] && p.line == "" && Plain(line)
    requires line == "" || line[|line| - 1] != CR
    ensures Run(p, line + [LF]) == LineEnd(LineStart(p), line)
  {
    var seg := line + [LF];
    BareSegment(line);
    assert "" + seg == seg;
    RunLineSegment(p, seg);
    ChopBare(line);
    assert LineStart(p).(line := "") == LineStart(p);
  }

  lemma ChopBare(line: string)
    requires line == "" || line[|line| - 1] != CR
    ensures Chop(line + [LF]) == line
  {
    var seg := line + [LF];
    assert seg[..|seg| - 1] == line;
  }

  lemma {:induction false} BareSegment(line: string)
    requires LF !in line
    ensures OneSegment(line + [LF])
    decreases |line|
  {
    var seg := line + [LF];
    if line == "" {
      assert |seg| == 1;
    } else {
      assert seg[1..] == line[1..] + [LF];
      BareSegment(line[1..]);
    }
  }

  /** No number at the start of the line, white space and signs aside. */
  predicate NoSize(line: string) {
    line == "" || (&& line[0] !in " \t\n\r+-" && line[0] != 11 as char && line[0] != 12 as char
                   && line[0] !in "0123456789abcdefABCDEF")
  }

  /** Where a chunk size is due, a line without one is skipped, and so is a size that no
      unsigned long holds. */
  lemma BadSizeSkipped(p: Parse, line: string, size: string, ext: string)
    requires !p.bad && p.phase.Chunked? && p.recvq != [] && p.line == "" && p.contentBytes == p.contentLength
    requires Plain(line) && line == size + ext && Extension(ext)
    requires NoSize(line) || (Numeral(size, 16) && ValueOf(size, 16) > 0xffff_ffff_ffff_ffff)
    ensures Run(p, line + CRLF) == p
  {
    RunLine(p, line);
    if NoSize(line) {
      if line != "" {
        NoSizeNoDigits(line);
      }
    } else {
      StrtoulOfNumeral(size, 16, ext);
    }
  }

  lemma NoSizeNoDigits(line: string)
    requires NoSize(line) && line != ""
    ensures !Read(Hexadecimal, line).hasDigits
  {
    var c := line[0];
    NoHexDigit(c);
    assert SkipSpaces(line) == line;
    assert AfterHexPrefix(line) == line;
    assert LeadingDigits(line, 16) == 0;
  }

  lemma NoHexDigit(c: char)
    requires c !in "0123456789abcdefABCDEF"
    ensures DigitValue(c) >= 16
  {
    if DigitValue(c) < 16 {
      HexDigitListed(c);
    }
  }

  lemma HexDigitListed(c: char)
    requires DigitValue(c) < 16
    ensures c in "0123456789abcdefABCDEF"
  {
    var digits := "0123456789abcdefABCDEF";
    var k := if c <= '9' then DigitValue(c) else if c <= 'F' then DigitValue(c) + 6 else DigitValue(c);
    assert digits[k] == c;
  }
}

/** Replies as RFC 7230 (sections 3.3.3 and 4.1) frames them, and the proof that
    the parser takes such a stream apart into exactly the replies it was made of. */
module ReplyFraming {
  import opened Shared
  import opened CString
  import opened ReplyAutomaton
  import ReplyParser

  const CRLF := [CR, LF]

  /** A chunk, its size in hexadecimal, and its extension if it has one. */
  datatype Chunk = Chunk(size: string, ext: string, data: string)

  /** A field that frames a body as its writer spells it: the name with its colon, in any
      case, white space, the value, and white space again. */
  datatype Field = Field(name: string, blanks: string, value: string, pad: string)
  {
    function Text(): string { name + (blanks + (value + pad)) }
  }

  /** A chunked body ends with a chunk of size 0, which is written with any number of zeros,
      and its extension if it has one. */
  datatype Body =
    | Bodyless
    | Sized(field: Field, data: string)
    | Chunks(field: Field, chunks: seq<Chunk>, zeros: string, last: string, footers: seq<string>)

  /** A reply of any version; the field that frames the body stands between two groups of
      others. */
  datatype Reply = Reply(major: string, minor: string, code: string, reason: string,
                         before: seq<string>, after: seq<string>, body: Body)
  {
    function Status(): nat { ValueOf(code, 10) }

    function Version(): nat { VersionOf(ValueOf(major, 10), ValueOf(minor, 10)) }
  }

  // ---- what may be written ----

  /** Text of a line that fits the line buffer with its CR LF. */
  predicate Plain(line: string) {
    NUL !in line && LF !in line && |line| + 2 <= 1023
  }

  predicate FramingField(line: string) {
    StartsWithNoCase(line, CONTENT_LENGTH) || StartsWithNoCase(line, TRANSFER_ENCODING)
  }

  predicate Fieldlike(lines: seq<string>) {
    forall i :: 0 <= i < |lines| ==> lines[i] != "" && Plain(lines[i])
  }

  predicate NoFraming(lines: seq<string>) {
    forall i :: 0 <= i < |lines| ==> !FramingField(lines[i])
  }

  /** A Content-Length field that reads as 0, be it for want of a number. */
  predicate SaysZero(line: string) {
    StartsWithNoCase(line, CONTENT_LENGTH) && Read(Decimal, line[|CONTENT_LENGTH|..]).value == 0
  }

  predicate NoneSaysZero(lines: seq<string>) {
    forall i :: 0 <= i < |lines| ==> !SaysZero(lines[i])
  }

  /** White space: blanks, tabs, line feeds, vertical tabs, form feeds, carriage returns. */
  predicate Blanks(s: string) {
    forall i :: 0 <= i < |s| ==> s[i] == ' ' || 9 <= s[i] as int <= 13
  }

  predicate SizeField(f: Field) {
    && |f.name| == |CONTENT_LENGTH| && StartsWithNoCase(f.name, CONTENT_LENGTH)
    && Blanks(f.blanks) && Numeral(f.value, 10) && Blanks(f.pad) && Plain(f.Text())
  }

  predicate ChunkedField(f: Field) {
    && |f.name| == |TRANSFER_ENCODING| && StartsWithNoCase(f.name, TRANSFER_ENCODING)
    && Blanks(f.blanks) && EqualsNoCase(f.value, "chunked") && Blanks(f.pad) && Plain(f.Text())
  }

  /** What the parser takes for the field that says chunked. */
  predicate SaysChunked(line: string) {
    && StartsWithNoCase(line, TRANSFER_ENCODING)
    && EqualsNoCase(SkipSpaces(line[|TRANSFER_ENCODING|..]), "chunked")
  }

  predicate OneSaysChunked(lines: seq<string>) {
    exists i :: 0 <= i < |lines| && SaysChunked(lines[i])
  }

  predicate Zeros(s: string) {
    s != "" && forall i :: 0 <= i < |s| ==> s[i] == '0'
  }

  predicate Extension(ext: string) {
    ext == "" || ext[0] == ';'
  }

  predicate ChunkLegal(c: Chunk) {
    && c.data != "" && Numeral(c.size, 16) && ValueOf(c.size, 16) == |c.data| <= 0xffff_ffff_ffff_ffff
    && Extension(c.ext) && Plain(c.size + c.ext)
  }

  predicate BodyLegal(body: Body) {
    match body
    case Bodyless => true
    case Sized(field, data) => SizeField(field) && ValueOf(field.value, 10) == |data| <= 0xffff_ffff_ffff_ffff
    case Chunks(field, chunks, zeros, last, footers) =>
      && ChunkedField(field)
      && (forall i :: 0 <= i < |chunks| ==> ChunkLegal(chunks[i]))
      && TotalSize(chunks) <= 0xffff_ffff_ffff_ffff
      && Zeros(zeros) && Extension(last) && Plain(zeros + last)
      && Fieldlike(footers)
  }

  predicate StatusWritten(r: Reply) {
    && Numeral(r.major, 10) && ValueOf(r.major, 10) < 0x1_0000_0000
    && Numeral(r.minor, 10) && ValueOf(r.minor, 10) < 0x1_0000_0000
    && Numeral(r.code, 10) && r.Status() < 0x1_0000_0000
    && Plain(StatusText(r))
  }

  predicate StatusLegal(r: Reply) {
    StatusWritten(r) && !(100 <= r.Status() < 200)
  }

  /** The statuses of replies that never have a body (section 3.3.3 of RFC 7230, and 6.3.6 of
      RFC 7231 for 205). */
  predicate NoBody(status: nat) {
    100 <= status <= 199 || status == 204 || status == 205 || status == 304
  }

  /** What the parser needs to see that the body is chunked: a field that says so in its
      own way, and none that says 0. */
  predicate Heeded(r: Reply) {
    OneSaysChunked(Fields(r)) && NoneSaysZero(Fields(r))
  }

  /** No body exactly where RFC 7230 allows none, and no 1xx reply.  Beside the field that
      says chunked there may be others that frame a body, for it overrides them. */
  predicate ReplyLegal(r: Reply, isHead: bool) {
    && StatusLegal(r)
    && Fieldlike(r.before) && Fieldlike(r.after)
    && (r.body.Sized? ==> NoFraming(r.before) && NoFraming(r.after))
    && (r.body.Chunks? ==> Heeded(r))
    && BodyLegal(r.body)
    && (r.body.Bodyless? <==> isHead || NoBody(r.Status()))
  }

  // ---- writing ----

  function StatusText(r: Reply): string {
    "HTTP/" + (r.major + ("." + (r.minor + (" " + (r.code + (" " + r.reason))))))
  }

  function LinesText(lines: seq<string>): string {
    if lines == [] then "" else lines[0] + CRLF + LinesText(lines[1..])
  }

  function TotalSize(chunks: seq<Chunk>): nat {
    if chunks == [] then 0 else |chunks[0].data| + TotalSize(chunks[1..])
  }

  function ChunksText(chunks: seq<Chunk>): string {
    if chunks == [] then ""
    else chunks[0].size + chunks[0].ext + CRLF + chunks[0].data + CRLF + ChunksText(chunks[1..])
  }

  function FramingFields(body: Body): seq<string> {
    match body
    case Bodyless => []
    case Sized(field, _) => [field.Text()]
    case Chunks(field, _, _, _, _) => [field.Text()]
  }

  function BodyText(body: Body): string {
    match body
    case Bodyless => ""
    case Sized(_, data) => data
    case Chunks(_, chunks, _, _, _) => ChunksText(chunks) + TrailerText(body)
  }

  function TrailerText(body: Body): string
    requires body.Chunks?
  {
    body.zeros + body.last + CRLF + LinesText(body.footers) + CRLF
  }

  function Fields(r: Reply): seq<string> {
    r.before + FramingFields(r.body) + r.after
  }

  function ReplyText(r: Reply): string {
    StatusText(r) + CRLF + LinesText(Fields(r)) + CRLF + BodyText(r.body)
  }

  function StreamText(replies: seq<Reply>): string {
    if replies == [] then "" else ReplyText(replies[0]) + StreamText(replies[1..])
  }

  // ---- what the program is to be told ----

  function ChunksData(chunks: seq<Chunk>): string {
    if chunks == [] then "" else chunks[0].data + ChunksData(chunks[1..])
  }

  function BodyData(body: Body): string {
    match body
    case Bodyless => ""
    case Sized(_, data) => data
    case Chunks(_, chunks, _, _, _) => ChunksData(chunks)
  }

  function Footers(body: Body): seq<string> {
    if body.Chunks? then body.footers else []
  }

  function HeaderSignals(id: nat, lines: seq<string>): seq<Signal> {
    if lines == [] then [] else [RecvHeader(id, lines[0])] + HeaderSignals(id, lines[1..])
  }

  function FooterSignals(id: nat, lines: seq<string>): seq<Signal> {
    if lines == [] then [] else [RecvFooter(id, lines[0])] + FooterSignals(id, lines[1..])
  }

  function ReplySignals(r: Reply, id: nat): seq<Signal> {
    [RecvStart(id, r.Version(), r.Status())] + HeaderSignals(id, Fields(r))
    + DataSignals(id, BodyData(r.body)) + FooterSignals(id, Footers(r.body)) + [RecvStop(id)]
  }

  function StreamSignals(replies: seq<Reply>, calls: seq<Request>): seq<Signal>
    requires |replies| <= |calls|
  {
    if replies == [] then []
    else ReplySignals(replies[0], calls[0].id) + StreamSignals(replies[1..], calls[1..])
  }

  // ---- reading lines back ----

  /** A line with its CR LF, arriving at an empty line buffer. */
  lemma RunLine(p: Parse, line: string)
    requires !p.bad && LinePhase(p) && p.recvq != [] && p.line == "" && Plain(line)
    ensures Run(p, line + CRLF) == LineEnd(LineStart(p), line)
  {
    var seg := line + CRLF;
    PlainSegment(line);
    PlainFits(line);
    RunLineSegment(p, seg);
    assert p.line + seg == seg;
    ChopCrlf(line);
    assert LineStart(p).(line := "") == LineStart(p);
  }

  lemma PlainFits(line: string)
    requires Plain(line)
    ensures Fits("", line + CRLF) && Complete(line + CRLF)
  {
    assert "" + (line + CRLF) == line + CRLF;
  }

  lemma ChopCrlf(line: string)
    ensures Chop(line + CRLF) == line
  {
    var seg := line + CRLF;
    assert seg[..|seg| - 1] == line + [CR];
    assert (line + [CR])[..|line|] == line;
  }

  lemma {:induction false} PlainSegment(line: string)
    requires LF !in line
    ensures OneSegment(line + CRLF)
    decreases |line|
  {
    var seg := line + CRLF;
    if line == "" {
      assert seg[1..] == [LF];
    } else {
      assert seg[1..] == line[1..] + CRLF;
      PlainSegment(line[1..]);
    }
  }

  /** The end of a list of header fields. */
  function FieldsEnd(p: Parse, lines: seq<string>): Parse
    decreases |lines|
  {
    if lines == [] then p else FieldsEnd(HeaderLine(p, lines[0]), lines[1..])
  }

  lemma {:induction false} RunFields(p: Parse, lines: seq<string>)
    requires !p.bad && (p.phase.Header? || p.phase.Continue?) && p.recvq != [] && p.line == "" && Fieldlike(lines)
    ensures Run(p, LinesText(lines)) == FieldsEnd(p, lines)
    decreases |lines|
  {
    if lines != [] {
      RunConcat(p, lines[0] + CRLF, LinesText(lines[1..]));
      RunLine(p, lines[0]);
      RunFields(HeaderLine(p, lines[0]), lines[1..]);
    }
  }

  lemma HeaderSignalsCons(log: seq<Signal>, id: nat, lines: seq<string>)
    requires lines != []
    ensures log + HeaderSignals(id, lines) == log + [RecvHeader(id, lines[0])] + HeaderSignals(id, lines[1..])
  {
  }

  /** p after header fields that made this of the framing of the body. */
  function Framed(p: Parse, length: nat, chunked: bool, hasBody: bool, lines: seq<string>): Parse {
    p.(contentLength := length, isChunked := chunked, hasBody := hasBody,
       signals := p.signals + HeaderSignals(p.Id(), lines))
  }

  /** Whatever header fields say, they are passed on and touch only the framing. */
  lemma {:induction false} FieldsFrame(p: Parse, lines: seq<string>)
    requires Fieldlike(lines)
    ensures var q := FieldsEnd(p, lines); q == Framed(p, q.contentLength, q.isChunked, q.hasBody, lines)
    decreases |lines|
  {
    if lines == [] {
      assert p.signals + [] == p.signals;
    } else {
      FieldsFrame(HeaderLine(p, lines[0]), lines[1..]);
      HeaderSignalsCons(p.signals, p.Id(), lines);
    }
  }

  predicate SameFraming(p: Parse, q: Parse) {
    p.contentLength == q.contentLength && p.isChunked == q.isChunked && p.hasBody == q.hasBody
  }

  lemma {:induction false} PlainFieldsKeepFraming(p: Parse, lines: seq<string>)
    requires Fieldlike(lines) && NoFraming(lines)
    ensures SameFraming(FieldsEnd(p, lines), p)
    decreases |lines|
  {
    if lines != [] {
      PlainFieldsKeepFraming(HeaderLine(p, lines[0]), lines[1..]);
    }
  }

  /** Without a body, header fields can say about it what they want. */
  lemma {:induction false} BodylessStays(p: Parse, lines: seq<string>)
    requires Fieldlike(lines) && !p.hasBody
    ensures !FieldsEnd(p, lines).hasBody
    decreases |lines|
  {
    if lines != [] {
      BodylessStays(HeaderLine(p, lines[0]), lines[1..]);
    }
  }

  lemma ZeroFieldSays(p: Parse, line: string)
    requires line != "" && p.hasBody
    ensures HeaderLine(p, line).hasBody <==> !SaysZero(line)
  {
  }

  lemma NoneSaysZeroCons(lines: seq<string>)
    requires lines != []
    ensures NoneSaysZero(lines) <==> !SaysZero(lines[0]) && NoneSaysZero(lines[1..])
  {
    assert forall i :: 0 < i < |lines| ==> lines[i] == lines[1..][i - 1];
  }

  lemma {:induction false} ZeroTakesBody(p: Parse, lines: seq<string>)
    requires Fieldlike(lines) && p.hasBody
    ensures FieldsEnd(p, lines).hasBody <==> NoneSaysZero(lines)
    decreases |lines|
  {
    if lines != [] {
      var q := HeaderLine(p, lines[0]);
      ZeroFieldSays(p, lines[0]);
      NoneSaysZeroCons(lines);
      if q.hasBody {
        ZeroTakesBody(q, lines[1..]);
      } else {
        BodylessStays(q, lines[1..]);
      }
    }
  }

  lemma ChunkedLineSays(p: Parse, line: string)
    requires line != ""
    ensures HeaderLine(p, line).isChunked <==> p.isChunked || SaysChunked(line)
  {
    if StartsWithNoCase(line, TRANSFER_ENCODING) {
      assert ToLower(line[0]) == TRANSFER_ENCODING[0] != CONTENT_LENGTH[0];
    }
  }

  lemma OneSaysChunkedCons(lines: seq<string>)
    requires lines != []
    ensures OneSaysChunked(lines) <==> SaysChunked(lines[0]) || OneSaysChunked(lines[1..])
  {
    assert forall i :: 0 < i < |lines| ==> lines[i] == lines[1..][i - 1];
    if OneSaysChunked(lines[1..]) {
      var i :| 0 <= i < |lines[1..]| && SaysChunked(lines[1..][i]);
      assert lines[i + 1] == lines[1..][i];
    }
  }

  lemma {:induction false} ChunkedHeeded(p: Parse, lines: seq<string>)
    requires Fieldlike(lines)
    ensures FieldsEnd(p, lines).isChunked <==> p.isChunked || OneSaysChunked(lines)
    decreases |lines|
  {
    if lines != [] {
      ChunkedLineSays(p, lines[0]);
      OneSaysChunkedCons(lines);
      ChunkedHeeded(HeaderLine(p, lines[0]), lines[1..]);
    }
  }

  lemma {:induction false} LengthPositive(p: Parse, lines: seq<string>)
    requires Fieldlike(lines) && NoneSaysZero(lines) && p.contentLength > 0
    ensures FieldsEnd(p, lines).contentLength > 0
    decreases |lines|
  {
    if lines != [] {
      NoneSaysZeroCons(lines);
      LengthPositive(HeaderLine(p, lines[0]), lines[1..]);
    }
  }

  lemma FieldFramesAlike(p: Parse, q: Parse, line: string)
    requires SameFraming(p, q)
    ensures SameFraming(HeaderField(p, line), HeaderField(q, line))
  {
  }

  lemma {:induction false} FieldsEndConcat(p: Parse, a: seq<string>, b: seq<string>)
    ensures FieldsEnd(p, a + b) == FieldsEnd(FieldsEnd(p, a), b)
    decreases |a|
  {
    if a == [] {
      assert a + b == b;
    } else {
      assert (a + b)[1..] == a[1..] + b;
      FieldsEndConcat(HeaderLine(p, a[0]), a[1..], b);
    }
  }

  /** Fields around the one that frames the body have no say in it. */
  lemma FramingFieldDecides(p: Parse, before: seq<string>, field: string, after: seq<string>)
    requires Fieldlike(before) && NoFraming(before) && Fieldlike(after) && NoFraming(after) && field != ""
    ensures SameFraming(FieldsEnd(p, before + [field] + after), HeaderField(p, field))
  {
    var p1 := FieldsEnd(p, before);
    var p2 := FieldsEnd(p1, [field]);
    PlainFieldsKeepFraming(p, before);
    FieldFramesAlike(p1, p, field);
    assert p2 == FieldsEnd(HeaderLine(p1, field), [field][1..]);
    PlainFieldsKeepFraming(p2, after);
    FieldsEndConcat(p, before, [field]);
    FieldsEndConcat(p, before + [field], after);
  }

  // ---- what single lines say ----

  /** A number that an unsigned int holds. */
  predicate Small(n: nat) {
    n < 0x1_0000_0000
  }

  lemma NumberScans(major: nat, minor: nat, code: string, reason: string)
    requires Numeral(code, 10) && Small(ValueOf(code, 10)) && Small(major) && Small(minor)
    ensures ScanNumber(major, minor, " " + (code + (" " + reason))) == Some(StatusLine(major, minor, ValueOf(code, 10)))
  {
    var number := code + (" " + reason);
    SpaceSkipped(number);
    ReadsDecimal(code, " " + reason);
    NumberScanned(major, minor, " " + number, ValueOf(code, 10), " " + reason);
  }

  lemma MinorScans(major: nat, minor: string, s: string)
    requires Numeral(minor, 10) && Small(ValueOf(minor, 10))
    ensures ScanMinor(major, minor + (" " + s)) == ScanNumber(major, ValueOf(minor, 10), " " + s)
  {
    ReadsDecimal(minor, " " + s);
    MinorScanned(major, minor + (" " + s), ValueOf(minor, 10), " " + s);
  }

  lemma MajorScans(major: string, s: string)
    requires Numeral(major, 10) && Small(ValueOf(major, 10))
    ensures ScanMajor(major + ("." + s)) == ScanMinor(ValueOf(major, 10), s)
  {
    ReadsDecimal(major, "." + s);
    MajorScanned(major + ("." + s), ValueOf(major, 10), s);
  }

  lemma ProtocolScans(s: string)
    ensures ScanStatusLine("HTTP/" + s) == ScanMajor(s)
  {
    var line := "HTTP/" + s;
    assert line[..5] == "HTTP/" && line[5..] == s;
  }

  lemma StatusTextScans(r: Reply)
    requires StatusWritten(r)
    ensures Read(ScanStatusLine, StatusText(r))
         == Some(StatusLine(ValueOf(r.major, 10), ValueOf(r.minor, 10), r.Status()))
  {
    var number := r.code + (" " + r.reason);
    var minor := r.minor + (" " + number);
    var major := r.major + ("." + minor);
    ProtocolScans(major);
    MajorScans(r.major, minor);
    MinorScans(ValueOf(r.major, 10), r.minor, number);
    NumberScans(ValueOf(r.major, 10), ValueOf(r.minor, 10), r.code, r.reason);
  }

  lemma ReadsDecimal(s: string, rest: string)
    requires Numeral(s, 10) && ValueOf(s, 10) <= MAX_ULONG
    requires rest == "" || (DigitValue(rest[0]) >= 10 && ToLower(rest[0]) != 'x')
    ensures Read(Decimal, s + rest) == Number(ValueOf(s, 10), true, false, rest)
  {
    StrtoulOfNumeral(s, 10, rest);
  }

  lemma SpaceSkipped(s: string)
    requires s != "" && DigitValue(s[0]) < 16
    ensures SkipSpaces(" " + s) == s
  {
    assert (" " + s)[1..] == s;
    PlainDigit(s[0], 16);
  }

  lemma {:induction false} BlanksSkipped(blanks: string, s: string)
    requires Blanks(blanks) && (s == "" || !IsSpace(s[0]))
    ensures SkipSpaces(blanks + s) == s
    decreases |blanks|
  {
    if blanks == "" {
      assert blanks + s == s;
    } else {
      assert (blanks + s)[1..] == blanks[1..] + s;
      BlanksSkipped(blanks[1..], s);
    }
  }

  /** White space in front of a numeral, and behind it, is nothing to strtoul. */
  lemma BlankedDecimal(blanks: string, size: string, pad: string)
    requires Blanks(blanks) && Blanks(pad) && Numeral(size, 10) && ValueOf(size, 10) <= MAX_ULONG
    ensures Read(Decimal, blanks + (size + pad)).value == ValueOf(size, 10)
  {
    PlainDigit(size[0], 10);
    assert (size + pad)[0] == size[0];
    BlanksSkipped(blanks, size + pad);
    assert SkipSpaces(size + pad) == size + pad;
    SameBehindBlanks(blanks + (size + pad), size + pad, 10);
    PadEndsNumber(pad);
    StrtoulOfNumeral(size, 10, pad);
  }

  lemma PadEndsNumber(pad: string)
    requires Blanks(pad)
    ensures pad == "" || (DigitValue(pad[0]) >= 10 && ToLower(pad[0]) != 'x')
  {
  }

  lemma NameMatches(name: string, tail: string, word: string)
    requires |name| == |word| && StartsWithNoCase(name, word)
    ensures StartsWithNoCase(name + tail, word) && (name + tail)[|word|..] == tail
  {
  }

  lemma SizeFieldSays(p: Parse, f: Field)
    requires SizeField(f) && ValueOf(f.value, 10) <= MAX_ULONG
    ensures var n := ValueOf(f.value, 10);
            HeaderField(p, f.Text()) == p.(contentLength := n, hasBody := p.hasBody && n != 0)
  {
    NameMatches(f.name, f.blanks + (f.value + f.pad), CONTENT_LENGTH);
    BlankedDecimal(f.blanks, f.value, f.pad);
  }

  lemma ChunkedWord(word: string)
    requires EqualsNoCase(word, "chunked")
    ensures word != "" && ToLower(word[0]) == 'c' && !IsSpace(word[0])
  {
    assert UpToNul(word) == [word[0]] + UpToNul(word[1..]);
    assert ToLower(UpToNul(word)[0]) == "chunked"[0];
  }

  lemma {:induction false} NoNulIn(s: string)
    requires NUL !in s
    ensures UpToNul(s) == s
  {
    if s != "" {
      NoNulIn(s[1..]);
    }
  }

  /** White space behind the value is part of what the parser compares. */
  lemma PaddedWord(value: string, pad: string)
    requires EqualsNoCase(value, "chunked") && NUL !in value && NUL !in pad
    ensures EqualsNoCase(value + pad, "chunked") <==> pad == ""
  {
    NoNulIn(value);
    NoNulIn(value + pad);
    assert value + "" == value;
  }

  /** The parser heeds a field that says chunked if and only if there is no white space
      behind its value; otherwise it is as if the field were not there. */
  lemma ChunkedFieldSays(p: Parse, f: Field)
    requires ChunkedField(f)
    ensures SaysChunked(f.Text()) <==> f.pad == ""
    ensures HeaderField(p, f.Text()) == if f.pad == "" then p.(isChunked := true) else p
  {
    var word, line := f.value + f.pad, f.Text();
    NameMatches(f.name, f.blanks + word, TRANSFER_ENCODING);
    ChunkedWord(f.value);
    BlanksSkipped(f.blanks, word);
    NoNulInWord(f);
    PaddedWord(f.value, f.pad);
    assert line[0] == f.name[0];
    assert ToLower(f.name[0]) == TRANSFER_ENCODING[0] != CONTENT_LENGTH[0];
  }

  lemma NoNulInWord(f: Field)
    requires NUL !in f.Text()
    ensures NUL !in f.value && NUL !in f.pad
  {
    forall c | c in f.value || c in f.pad ensures c in f.Text() {
      assert c in f.value + f.pad;
      assert c in f.blanks + (f.value + f.pad);
    }
  }

  lemma ReadsHexadecimal(s: string, ext: string)
    requires Numeral(s, 16) && ValueOf(s, 16) <= MAX_ULONG && Extension(ext)
    ensures Read(Hexadecimal, s + ext) == Number(ValueOf(s, 16), true, false, ext)
  {
    StrtoulOfNumeral(s, 16, ext);
  }

  lemma ChunkLineSays(p: Parse, c: Chunk)
    requires ChunkLegal(c) && p.contentLength + |c.data| <= MAX_ULONG
    ensures ChunkLine(p, c.size + c.ext) == p.(contentLength := p.contentLength + |c.data|)
  {
    ReadsHexadecimal(c.size, c.ext);
  }

  lemma {:induction false} ZerosAreZero(zeros: string)
    requires Zeros(zeros)
    ensures Numeral(zeros, 16) && ValueOf(zeros, 16) == 0
  {
    if |zeros| > 1 {
      ZerosAreZero(zeros[..|zeros| - 1]);
    }
  }

  lemma LastChunkSays(p: Parse, zeros: string, last: string)
    requires Zeros(zeros) && Extension(last)
    ensures ChunkLine(p, zeros + last) == p.(phase := Footer)
  {
    ZerosAreZero(zeros);
    ReadsHexadecimal(zeros, last);
  }

  // ---- reading bodies back ----

  /** The line that announces a chunk. */
  lemma RunSizeLine(p: Parse, c: Chunk)
    requires !p.bad && p.phase.Chunked? && p.recvq != [] && p.line == "" && p.contentBytes == p.contentLength
    requires ChunkLegal(c) && p.contentLength + |c.data| <= MAX_ULONG
    ensures Run(p, c.size + c.ext + CRLF) == p.(contentLength := p.contentLength + |c.data|)
  {
    RunLine(p, c.size + c.ext);
    ChunkLineSays(p, c);
  }

  /** The data of a chunk, and the line end behind it. */
  lemma RunChunkData(q: Parse, data: string)
    requires !q.bad && q.phase.Chunked? && q.recvq != [] && q.line == ""
    requires data != "" && q.contentBytes + |data| == q.contentLength
    ensures Run(q, data + CRLF) == BodyGrown(q, data)
  {
    RunBodySegment(q, data);
    RunConcat(q, data, CRLF);
    RunLine(BodyGrown(q, data), "");
    assert "" + CRLF == CRLF;
  }

  lemma RunChunk(p: Parse, c: Chunk)
    requires !p.bad && p.phase.Chunked? && p.recvq != [] && p.line == "" && p.contentBytes == p.contentLength
    requires ChunkLegal(c) && p.contentLength + |c.data| <= MAX_ULONG
    ensures Run(p, c.size + c.ext + CRLF + c.data + CRLF)
            == p.(contentLength := p.contentLength + |c.data|, contentBytes := p.contentBytes + |c.data|,
                  signals := p.signals + DataSignals(p.Id(), c.data))
  {
    var sizeLine := c.size + c.ext + CRLF;
    RunSizeLine(p, c);
    RunChunkData(p.(contentLength := p.contentLength + |c.data|), c.data);
    RunConcat(p, sizeLine, c.data + CRLF);
    assert sizeLine + (c.data + CRLF) == sizeLine + c.data + CRLF;
  }

  lemma {:induction false} RunChunks(p: Parse, chunks: seq<Chunk>)
    requires !p.bad && p.phase.Chunked? && p.recvq != [] && p.line == "" && p.contentBytes == p.contentLength
    requires forall i :: 0 <= i < |chunks| ==> ChunkLegal(chunks[i])
    requires p.contentLength + TotalSize(chunks) <= MAX_ULONG
    ensures Run(p, ChunksText(chunks))
            == p.(contentLength := p.contentLength + TotalSize(chunks),
                  contentBytes := p.contentBytes + TotalSize(chunks),
                  signals := p.signals + DataSignals(p.Id(), ChunksData(chunks)))
    decreases |chunks|
  {
    if chunks == [] {
      assert p.signals + [] == p.signals;
    } else {
      var c := chunks[0];
      var text := c.size + c.ext + CRLF + c.data + CRLF;
      var q := Run(p, text);
      RunChunk(p, c);
      assert ChunksText(chunks) == text + ChunksText(chunks[1..]);
      RunConcat(p, text, ChunksText(chunks[1..]));
      RunChunks(q, chunks[1..]);
      DataSignalsConcat(p.signals, p.Id(), c.data, ChunksData(chunks[1..]));
    }
  }

  lemma DataSignalsConcat(log: seq<Signal>, id: nat, a: string, b: string)
    ensures log + DataSignals(id, a) + DataSignals(id, b) == log + DataSignals(id, a + b)
  {
  }

  lemma {:induction false} RunFooters(p: Parse, lines: seq<string>)
    requires !p.bad && p.phase.Footer? && p.recvq != [] && p.line == "" && Fieldlike(lines)
    ensures Run(p, LinesText(lines)) == p.(signals := p.signals + FooterSignals(p.Id(), lines))
    decreases |lines|
  {
    if lines == [] {
      assert p.signals + [] == p.signals;
    } else {
      var q := p.Signalled(RecvFooter(p.Id(), lines[0]));
      RunConcat(p, lines[0] + CRLF, LinesText(lines[1..]));
      RunFooter(p, lines[0]);
      RunFooters(q, lines[1..]);
      FooterSignalsCons(p.signals, p.Id(), lines);
    }
  }

  lemma RunFooter(p: Parse, line: string)
    requires !p.bad && p.phase.Footer? && p.recvq != [] && p.line == "" && line != "" && Plain(line)
    ensures Run(p, line + CRLF) == p.Signalled(RecvFooter(p.Id(), line))
  {
    RunLine(p, line);
  }

  lemma FooterSignalsCons(log: seq<Signal>, id: nat, lines: seq<string>)
    requires lines != []
    ensures log + FooterSignals(id, lines) == log + [RecvFooter(id, lines[0])] + FooterSignals(id, lines[1..])
  {
  }

  lemma RunTrailer(p: Parse, zeros: string, last: string, footers: seq<string>)
    requires !p.bad && p.phase.Chunked? && p.recvq != [] && p.line == "" && p.contentBytes == p.contentLength
    requires Zeros(zeros) && Extension(last) && Plain(zeros + last) && Fieldlike(footers)
    ensures Run(p, zeros + last + CRLF + LinesText(footers) + CRLF)
            == p.(phase := Done, signals := p.signals + FooterSignals(p.Id(), footers))
  {
    var size, lines := zeros + last + CRLF, LinesText(footers);
    var q := p.(phase := Footer);
    RunLine(p, zeros + last);
    LastChunkSays(p, zeros, last);
    RunConcat(p, size, lines);
    RunFooters(q, footers);
    RunConcat(p, size + lines, CRLF);
    RunLine(Run(q, lines), "");
    assert "" + CRLF == CRLF;
  }

  lemma RunChunkedBody(p: Parse, body: Body)
    requires body.Chunks? && BodyLegal(body)
    requires !p.bad && p.phase.Chunked? && p.recvq != [] && p.line == "" && p.contentBytes == p.contentLength == 0
    ensures Run(p, BodyText(body))
            == p.(phase := Done, contentLength := TotalSize(body.chunks), contentBytes := TotalSize(body.chunks),
                  signals := p.signals + DataSignals(p.Id(), BodyData(body)) + FooterSignals(p.Id(), body.footers))
  {
    var chunks := ChunksText(body.chunks);
    RunChunks(p, body.chunks);
    RunTrailer(Run(p, chunks), body.zeros, body.last, body.footers);
    RunConcat(p, chunks, TrailerText(body));
  }

  // ---- reading replies back ----

  /** Between two replies, in S_REPLY_STATUS with an empty line buffer. */
  predicate Ready(p: Parse) {
    !p.bad && p.phase.Status? && p.line == "" && p.contentBytes == 0
  }

  function AfterStatus(p: Parse, r: Reply, hasBody: bool): Parse {
    StatusKnown(p, r.Version(), r.Status(), hasBody)
  }

  function StatusKnown(p: Parse, version: nat, status: nat, hasBody: bool): Parse {
    p.(isChunked := false, contentLength := MAX_ULONG, version := version, status := status,
       hasBody := hasBody, phase := Header).Signalled(RecvStart(p.Id(), version, status))
  }

  lemma ScannedSays(p: Parse, v: StatusLine)
    requires Ready(p) && p.recvq != [] && v.status != 100
    ensures StatusScanned(LineStart(p), Some(v))
            == StatusKnown(p, VersionOf(v.major, v.minor), v.status, !p.recvq[0].isHead && !NoBody(v.status))
  {
  }

  lemma StatusSays(p: Parse, r: Reply)
    requires Ready(p) && p.recvq != [] && StatusLegal(r)
    ensures StatusEnd(LineStart(p), StatusText(r))
            == AfterStatus(p, r, !p.recvq[0].isHead && !NoBody(r.Status()))
  {
    StatusTextScans(r);
    ScannedSays(p, StatusLine(ValueOf(r.major, 10), ValueOf(r.minor, 10), r.Status()));
  }

  lemma RunStatusLine(p: Parse, r: Reply)
    requires Ready(p) && p.recvq != []
    requires StatusLegal(r)
    ensures Run(p, StatusText(r) + CRLF)
            == AfterStatus(p, r, !p.recvq[0].isHead && !NoBody(r.Status()))
  {
    RunLine(p, StatusText(r));
    StatusSays(p, r);
  }

  /** A status line of any status: a body is to follow if and only if the request was no
      HEAD and the status is not one of those without, and only after a 100 is there
      another reply to come for the same request. */
  lemma StatusDecidesBody(p: Parse, r: Reply)
    requires Ready(p) && p.recvq != [] && StatusWritten(r)
    ensures var q := Run(p, StatusText(r) + CRLF);
            && !q.bad && q.line == "" && q.recvq == p.recvq && q.status == r.Status() && q.version == r.Version()
            && q.signals == p.signals + [RecvStart(p.Id(), r.Version(), r.Status())]
            && (q.hasBody <==> !p.recvq[0].isHead
                               && !(100 <= r.Status() <= 199) && r.Status() !in {204, 205, 304})
            && q.phase == if !p.recvq[0].isHead && r.Status() == 100 then Continue else Header
  {
    RunLine(p, StatusText(r));
    StatusTextScans(r);
    AnyStatusScanned(p, StatusLine(ValueOf(r.major, 10), ValueOf(r.minor, 10), r.Status()));
  }

  lemma AnyStatusScanned(p: Parse, v: StatusLine)
    requires Ready(p) && p.recvq != []
    ensures var q := StatusScanned(LineStart(p), Some(v));
            && !q.bad && q.line == "" && q.recvq == p.recvq && q.status == v.status && q.version == VersionOf(v.major, v.minor)
            && q.signals == p.signals + [RecvStart(p.Id(), VersionOf(v.major, v.minor), v.status)]
            && (q.hasBody <==> !p.recvq[0].isHead && !(100 <= v.status <= 199) && v.status !in {204, 205, 304})
            && q.phase == if !p.recvq[0].isHead && v.status == 100 then Continue else Header
  {
  }

  /** The reply up to its body: the status line, some fields, the empty line. */
  function HeadText(r: Reply, fields: seq<string>): string {
    StatusText(r) + CRLF + LinesText(fields) + CRLF
  }

  lemma RunHead(p: Parse, r: Reply, fields: seq<string>)
    requires Ready(p) && p.recvq != []
    requires StatusLegal(r) && Fieldlike(fields)
    ensures var q := AfterStatus(p, r, !p.recvq[0].isHead && !NoBody(r.Status()));
            Run(p, HeadText(r, fields)) == HeadersEnd(FieldsEnd(q, fields))
  {
    var q := AfterStatus(p, r, !p.recvq[0].isHead && !NoBody(r.Status()));
    RunStatusLine(p, r);
    RunConcat(p, StatusText(r) + CRLF, LinesText(fields));
    RunFields(q, fields);
    FieldsFrame(q, fields);
    RunConcat(p, StatusText(r) + CRLF + LinesText(fields), CRLF);
    RunLine(FieldsEnd(q, fields), "");
    assert "" + CRLF == CRLF;
  }

  /** p once the reply r has been read for the call at the head of its queue. */
  ghost predicate HasRead(p: Parse, r: Reply, q: Parse) {
    && q.phase.Done? && !q.bad && q.line == "" && q.recvq == p.recvq
    && q.failureStatus == p.failureStatus && q.status == r.Status()
    && q.signals == p.signals + [RecvStart(p.Id(), r.Version(), r.Status())] + HeaderSignals(p.Id(), Fields(r))
                    + DataSignals(p.Id(), BodyData(r.body)) + FooterSignals(p.Id(), Footers(r.body))
  }

  lemma RunReply(p: Parse, r: Reply)
    requires Ready(p) && p.recvq != [] && ReplyLegal(r, p.recvq[0].isHead)
    ensures HasRead(p, r, Run(p, ReplyText(r)))
  {
    FieldsAreFieldlike(r);
    RunConcat(p, HeadText(r, Fields(r)), BodyText(r.body));
    RunHead(p, r, Fields(r));
    var start := AfterStatus(p, r, !r.body.Bodyless?);
    FieldsFrame(start, Fields(r));
    match r.body
    case Bodyless => BodylessStays(start, Fields(r));
    case Sized(_, _) => RunSizedReply(start, r);
    case Chunks(_, _, _, _, _) => RunChunkedReply(start, r);
  }

  lemma FieldsAreFieldlike(r: Reply)
    requires Fieldlike(r.before) && Fieldlike(r.after) && BodyLegal(r.body)
    ensures Fieldlike(Fields(r))
  {
    assert Fieldlike(FramingFields(r.body));
  }

  /** From the end of the status line to the end of the reply. */
  ghost predicate HasReadRest(p: Parse, r: Reply) {
    var q := Run(HeadersEnd(FieldsEnd(p, Fields(r))), BodyText(r.body));
    && q.phase.Done? && !q.bad && q.line == "" && q.recvq == p.recvq
    && q.failureStatus == p.failureStatus && q.status == p.status
    && q.signals == p.signals + HeaderSignals(p.Id(), Fields(r))
                    + DataSignals(p.Id(), BodyData(r.body)) + FooterSignals(p.Id(), Footers(r.body))
  }

  lemma RunSizedReply(p: Parse, r: Reply)
    requires r.body.Sized? && BodyLegal(r.body) && Fieldlike(Fields(r))
    requires Fieldlike(r.before) && NoFraming(r.before) && Fieldlike(r.after) && NoFraming(r.after)
    requires !p.bad && p.phase.Header? && p.recvq != [] && p.line == "" && p.contentBytes == 0
    requires p.hasBody && !p.isChunked
    ensures HasReadRest(p, r)
  {
    var field, data := r.body.field, r.body.data;
    FramingFieldDecides(p, r.before, field.Text(), r.after);
    SizeFieldSays(p, field);
    FieldsFrame(p, Fields(r));
    var q := HeadersEnd(FieldsEnd(p, Fields(r)));
    if data != "" {
      RunBodySegment(q, data);
    }
  }

  lemma RunChunkedReply(p: Parse, r: Reply)
    requires r.body.Chunks? && BodyLegal(r.body) && Fieldlike(Fields(r))
    requires Heeded(r)
    requires !p.bad && p.phase.Header? && p.recvq != [] && p.line == "" && p.contentBytes == 0 && p.hasBody
    ensures HasReadRest(p, r)
  {
    ChunkedHeeded(p, Fields(r));
    ZeroTakesBody(p, Fields(r));
    FieldsFrame(p, Fields(r));
    RunChunkedBody(HeadersEnd(FieldsEnd(p, Fields(r))), r.body);
  }

  lemma {:induction false} QueueNeverGrows(p: Parse, bytes: string)
    ensures |Run(p, bytes).recvq| <= |p.recvq|
    decreases |bytes|
  {
    if bytes != "" {
      assert bytes == [bytes[0]] + bytes[1..];
      RunCons(p, bytes[0], bytes[1..]);
      QueueShrinksOrStays(p, bytes[0]);
      QueueNeverGrows(Step(p, bytes[0]), bytes[1..]);
    }
  }

  lemma FieldKeepsQueue(p: Parse, line: string)
    ensures HeaderField(p, line).recvq == p.recvq
  {
  }

  lemma StatusKeepsQueue(p: Parse, scan: Option<StatusLine>)
    ensures StatusScanned(p, scan).recvq == p.recvq
  {
  }

  lemma ChunkKeepsQueue(p: Parse, n: Number)
    ensures ChunkScanned(p, n).recvq == p.recvq
  {
  }

  lemma LineKeepsQueue(p: Parse, line: string)
    ensures LineEnd(p, line).recvq == p.recvq
  {
    if p.phase.Status? {
      StatusKeepsQueue(p, Read(ScanStatusLine, line));
    } else if p.phase.Header? || p.phase.Continue? {
      FieldKeepsQueue(p, line);
    } else if !p.phase.Footer? && line != "" {
      ChunkKeepsQueue(p, Read(Hexadecimal, line));
    }
  }

  lemma ByteKeepsQueue(p: Parse, b: char)
    ensures LineByte(p, b).recvq == p.recvq && BodyByte(p, b).recvq == p.recvq
  {
    LineKeepsQueue(LineStart(p).(line := ""), Chop(p.line + [b]));
  }

  lemma QueueShrinksOrStays(p: Parse, b: char)
    ensures |Step(p, b).recvq| <= |Settle(p).recvq| <= |p.recvq| || p.bad
    ensures |Step(p, b).recvq| <= |p.recvq|
  {
    ByteKeepsQueue(Settle(p), b);
  }

  /** A reply that is taken to be over loses its call to the first byte behind it. */
  lemma OverTooSoon(p: Parse, bytes: string)
    requires !p.bad && p.phase.Done? && p.recvq != [] && bytes != ""
    ensures |Run(p, bytes).recvq| < |p.recvq|
  {
    assert bytes == [bytes[0]] + bytes[1..];
    RunCons(p, bytes[0], bytes[1..]);
    QueueShrinksOrStays(p, bytes[0]);
    QueueNeverGrows(Step(p, bytes[0]), bytes[1..]);
  }

  lemma {:induction false} ChunksTextLonger(chunks: seq<Chunk>)
    ensures |ChunksText(chunks)| >= |ChunksData(chunks)|
  {
    if chunks != [] {
      ChunksTextLonger(chunks[1..]);
    }
  }

  lemma {:induction false} LinesTextLonger(id: nat, lines: seq<string>)
    ensures |LinesText(lines)| >= |FooterSignals(id, lines)|
  {
    if lines != [] {
      LinesTextLonger(id, lines[1..]);
    }
  }

  /** A chunked body has more bytes than it has data and footers. */
  lemma BodyTextLonger(id: nat, body: Body)
    requires body.Chunks?
    ensures |BodyText(body)| > |BodyData(body)| + |FooterSignals(id, body.footers)|
  {
    ChunksTextLonger(body.chunks);
    LinesTextLonger(id, body.footers);
  }

  /** A chunked body that is taken for one of a given length is not read back. */
  lemma TakenForSized(h: Parse, bytes: string)
    requires !h.bad && h.phase.Data? && h.recvq != [] && h.contentBytes == 0 < h.contentLength && bytes != ""
    ensures var q := Run(h, bytes);
            |q.recvq| < |h.recvq| || !q.phase.Done? || |q.signals| == |h.signals| + |bytes|
  {
    if |bytes| <= h.contentLength {
      RunBodySegment(h, bytes);
    } else {
      var n := h.contentLength;
      assert bytes == bytes[..n] + bytes[n..];
      RunConcat(h, bytes[..n], bytes[n..]);
      RunBodySegment(h, bytes[..n]);
      OverTooSoon(Run(h, bytes[..n]), bytes[n..]);
    }
  }

  /** The end of the headers of a reply whose chunked body is not seen to be one. */
  lemma NotSeenChunked(p: Parse, r: Reply, h: Parse)
    requires Ready(p) && p.recvq != [] && !p.recvq[0].isHead && !NoBody(r.Status())
    requires StatusLegal(r) && r.body.Chunks? && Fieldlike(Fields(r)) && !Heeded(r)
    requires h == Run(p, HeadText(r, Fields(r)))
    ensures !h.bad && h.recvq == p.recvq
    ensures h.phase.Done? || (h.phase.Data? && h.contentBytes == 0 < h.contentLength)
    ensures h.signals == p.signals + [RecvStart(p.Id(), r.Version(), r.Status())] + HeaderSignals(p.Id(), Fields(r))
  {
    var start := AfterStatus(p, r, true);
    RunHead(p, r, Fields(r));
    FieldsFrame(start, Fields(r));
    ChunkedHeeded(start, Fields(r));
    ZeroTakesBody(start, Fields(r));
    if NoneSaysZero(Fields(r)) {
      LengthPositive(start, Fields(r));
    }
  }

  /** Section 3.3.3 of RFC 7230 lets a chunked body override any Content-Length, and
      section 3.2.4 allows white space behind a value.  The parser reads the reply right
      if and only if some field says chunked with nothing behind it, and no
      Content-Length reads as 0. */
  lemma ChunkedReadIfHeeded(p: Parse, r: Reply)
    requires Ready(p) && p.recvq != [] && !p.recvq[0].isHead && !NoBody(r.Status())
    requires StatusLegal(r) && r.body.Chunks? && BodyLegal(r.body) && Fieldlike(r.before) && Fieldlike(r.after)
    ensures HasRead(p, r, Run(p, ReplyText(r))) <==> Heeded(r)
  {
    if Heeded(r) {
      RunReply(p, r);
    } else {
      FieldsAreFieldlike(r);
      RunConcat(p, HeadText(r, Fields(r)), BodyText(r.body));
      var h := Run(p, HeadText(r, Fields(r)));
      NotSeenChunked(p, r, h);
      BodyTextLonger(p.Id(), r.body);
      if h.phase.Done? {
        OverTooSoon(h, BodyText(r.body));
      } else {
        TakenForSized(h, BodyText(r.body));
      }
    }
  }

  /** With no other framing field it is the white space alone that decides. */
  lemma ChunkedReadUnlessPadded(p: Parse, r: Reply)
    requires Ready(p) && p.recvq != [] && !p.recvq[0].isHead && !NoBody(r.Status())
    requires StatusLegal(r) && r.body.Chunks? && BodyLegal(r.body) && Fieldlike(r.before) && Fieldlike(r.after)
    requires NoFraming(r.before) && NoFraming(r.after)
    ensures HasRead(p, r, Run(p, ReplyText(r))) <==> r.body.field.pad == ""
  {
    ChunkedReadIfHeeded(p, r);
    ChunkedFieldSays(p, r.body.field);
    var field := r.body.field.Text();
    NotSizeField(r.body.field);
    assert Fields(r)[|r.before|] == field;
    forall i | 0 <= i < |Fields(r)| && i != |r.before|
      ensures !SaysZero(Fields(r)[i]) && !SaysChunked(Fields(r)[i]) {
      assert !FramingField(Fields(r)[i]);
    }
  }

  lemma NotSizeField(f: Field)
    requires ChunkedField(f)
    ensures !SaysZero(f.Text())
  {
    assert f.Text()[0] == f.name[0] && ToLower(f.name[0]) == TRANSFER_ENCODING[0] != CONTENT_LENGTH[0];
  }

  lemma EncodingName(name: string)
    requires name == "Transfer-Encoding:"
    ensures |name| == |TRANSFER_ENCODING| && StartsWithNoCase(name, TRANSFER_ENCODING) && NUL !in name && LF !in name
  {
  }

  lemma LengthName(name: string)
    requires name == "Content-Length:"
    ensures |name| == |CONTENT_LENGTH| && StartsWithNoCase(name, CONTENT_LENGTH) && NUL !in name && LF !in name
  {
  }

  lemma ChunkedLiteral(word: string)
    requires word == "chunked"
    ensures EqualsNoCase(word, "chunked") && NUL !in word && LF !in word
  {
    assert NUL !in word;
    NoNulIn(word);
    assert UpToNul(word) == "chunked";
  }

  lemma PlainField(f: Field)
    requires NUL !in f.name && NUL !in f.blanks && NUL !in f.value && NUL !in f.pad
    requires LF !in f.name && LF !in f.blanks && LF !in f.value && LF !in f.pad
    requires |f.name| + |f.blanks| + |f.value| + |f.pad| + 2 <= MAX_LINE
    ensures Plain(f.Text())
  {
  }

  /** White space behind the value: the field "Transfer-Encoding: chunked ", with a blank at
      its end, is as if it were not there. */
  lemma PaddedFieldIgnored(p: Parse, name: string, word: string, f: Field)
    requires name == "Transfer-Encoding:" && word == "chunked" && f == Field(name, " ", word, " ")
    ensures ChunkedField(f) && HeaderField(p, f.Text()) == p
  {
    EncodingName(name);
    ChunkedLiteral(word);
    PlainField(f);
    ChunkedFieldSays(p, f);
  }

  /** And "Content-Length: 0" takes the body away, chunked or not. */
  lemma ZeroFieldHeeded(p: Parse, name: string, f: Field)
    requires name == "Content-Length:" && f == Field(name, " ", "0", "")
    ensures SizeField(f) && SaysZero(f.Text()) && !HeaderField(p, f.Text()).hasBody
  {
    LengthName(name);
    PlainField(f);
    SizeFieldSaysZero(f);
    SizeFieldSays(p, f);
  }

  lemma SizeFieldSaysZero(f: Field)
    requires SizeField(f) && ValueOf(f.value, 10) == 0
    ensures SaysZero(f.Text())
  {
    NameMatches(f.name, f.blanks + (f.value + f.pad), CONTENT_LENGTH);
    BlankedDecimal(f.blanks, f.value, f.pad);
  }

  lemma ReadyAgain(p: Parse, r: Reply, q: Parse)
    requires Ready(p) && p.recvq != [] && HasRead(p, r, q)
    requires p.failureStatus != 0 ==> r.Status() != p.failureStatus
    ensures Ready(Settle(q)) && Settle(q).recvq == p.recvq[1..] && Settle(q).failureStatus == p.failureStatus
    ensures Settle(q).signals == p.signals + ReplySignals(r, p.Id())
  {
    var log, start, id := p.signals, [RecvStart(p.Id(), r.Version(), r.Status())], p.Id();
    var headers, data := HeaderSignals(id, Fields(r)), DataSignals(id, BodyData(r.body));
    var footers := FooterSignals(id, Footers(r.body));
    AppendAssoc(log, start, headers);
    AppendAssoc(log, start + headers, data);
    AppendAssoc(log, start + headers + data, footers);
    AppendAssoc(log, start + headers + data + footers, [RecvStop(id)]);
  }

  lemma AppendAssoc<T>(a: seq<T>, b: seq<T>, c: seq<T>)
    ensures a + (b + c) == a + b + c
  {
  }

  lemma StreamSignalsCons(log: seq<Signal>, replies: seq<Reply>, calls: seq<Request>)
    requires 0 < |replies| <= |calls|
    ensures log + ReplySignals(replies[0], calls[0].id) + StreamSignals(replies[1..], calls[1..])
            == log + StreamSignals(replies, calls)
  {
    AppendAssoc(log, ReplySignals(replies[0], calls[0].id), StreamSignals(replies[1..], calls[1..]));
  }

  /** Every reply is legal for its call, and none has the failure status. */
  ghost predicate StreamLegal(replies: seq<Reply>, calls: seq<Request>, failureStatus: nat) {
    && |replies| <= |calls|
    && (forall i :: 0 <= i < |replies| ==> ReplyLegal(replies[i], calls[i].isHead))
    && (failureStatus != 0 ==> forall i :: 0 <= i < |replies| ==> replies[i].Status() != failureStatus)
  }

  lemma StreamLegalCons(replies: seq<Reply>, calls: seq<Request>, failureStatus: nat)
    requires StreamLegal(replies, calls, failureStatus) && replies != []
    ensures ReplyLegal(replies[0], calls[0].isHead)
    ensures failureStatus != 0 ==> replies[0].Status() != failureStatus
    ensures StreamLegal(replies[1..], calls[1..], failureStatus)
  {
  }

  /** The framing round trip: a stream of replies, each framed in any way that is
      legal for its call, is taken apart into exactly those replies, and leaves the
      parser ready for the next one. */
  lemma {:induction false} StreamRoundTrip(p: Parse, replies: seq<Reply>)
    requires Ready(p) && StreamLegal(replies, p.recvq, p.failureStatus)
    ensures var q := Settle(Run(p, StreamText(replies)));
            && Ready(q) && q.recvq == p.recvq[|replies|..]
            && q.signals == p.signals + StreamSignals(replies, p.recvq)
    decreases |replies|
  {
    if replies == [] {
      assert p.signals + [] == p.signals;
    } else {
      var r, rest := replies[0], replies[1..];
      StreamLegalCons(replies, p.recvq, p.failureStatus);
      var q := Run(p, ReplyText(r));
      RunReply(p, r);
      ReadyAgain(p, r, q);
      StreamRoundTrip(Settle(q), rest);
      RunConcat(p, ReplyText(r), StreamText(rest));
      SettleBetween(q, StreamText(rest));
      StreamJoined(p, replies, Settle(q), Settle(Run(Settle(q), StreamText(rest))));
    }
  }

  lemma StreamJoined(p: Parse, replies: seq<Reply>, mid: Parse, end: Parse)
    requires 0 < |replies| <= |p.recvq|
    requires mid.recvq == p.recvq[1..] && mid.signals == p.signals + ReplySignals(replies[0], p.Id())
    requires end.recvq == mid.recvq[|replies| - 1..] && end.signals == mid.signals + StreamSignals(replies[1..], mid.recvq)
    ensures end.recvq == p.recvq[|replies|..] && end.signals == p.signals + StreamSignals(replies, p.recvq)
  {
    StreamSignalsCons(p.signals, replies, p.recvq);
  }

  lemma SettleBetween(p: Parse, bytes: string)
    requires !p.bad
    ensures Settle(Run(Settle(p), bytes)) == Settle(Run(p, bytes))
  {
    if bytes != "" {
      RunSettled(p, bytes);
    } else {
      SettleTwice(p);
    }
  }

  // ---- 100 (Continue) ----

  /** p once the status line of a 100 reply has been read. */
  function Continued(p: Parse, c: Reply): Parse {
    StatusKnown(p, c.Version(), 100, false).(phase := Continue)
  }

  lemma ScannedContinue(p: Parse, v: StatusLine)
    requires Ready(p) && p.recvq != [] && !p.recvq[0].isHead && v.status == 100
    ensures StatusScanned(LineStart(p), Some(v))
            == StatusKnown(p, VersionOf(v.major, v.minor), 100, false).(phase := Continue)
  {
  }

  lemma RunContinue(p: Parse, c: Reply)
    requires Ready(p) && p.recvq != [] && !p.recvq[0].isHead && StatusWritten(c) && c.Status() == 100
    ensures Run(p, StatusText(c) + CRLF) == Continued(p, c)
  {
    RunLine(p, StatusText(c));
    StatusTextScans(c);
    ScannedContinue(p, StatusLine(ValueOf(c.major, 10), ValueOf(c.minor, 10), c.Status()));
  }

  /** Fields and the empty line behind them. */
  lemma RunFieldsToEnd(p: Parse, fields: seq<string>)
    requires !p.bad && (p.phase.Header? || p.phase.Continue?) && p.recvq != [] && p.line == "" && Fieldlike(fields)
    ensures Run(p, LinesText(fields) + CRLF) == HeadersEnd(FieldsEnd(p, fields))
  {
    RunFields(p, fields);
    FieldsFrame(p, fields);
    RunConcat(p, LinesText(fields), CRLF);
    RunLine(FieldsEnd(p, fields), "");
    assert "" + CRLF == CRLF;
  }

  lemma HeadTextIs(r: Reply, fields: seq<string>)
    ensures HeadText(r, fields) == StatusText(r) + CRLF + (LinesText(fields) + CRLF)
    ensures HeadText(r, fields) == LinesText([StatusText(r)] + fields) + CRLF
  {
    assert ([StatusText(r)] + fields)[1..] == fields;
  }

  /** A 100 reply leads back to the header state, not to a new status line. */
  lemma RunInterim(p: Parse, c: Reply)
    requires Ready(p) && p.recvq != [] && !p.recvq[0].isHead && StatusWritten(c) && c.Status() == 100 && Fieldlike(c.before)
    ensures var q := Run(p, HeadText(c, c.before));
            && q == Framed(Continued(p, c), q.contentLength, q.isChunked, false, c.before).(phase := Header)
  {
    var start := Continued(p, c);
    HeadTextIs(c, c.before);
    RunContinue(p, c);
    RunConcat(p, StatusText(c) + CRLF, LinesText(c.before) + CRLF);
    RunFieldsToEnd(start, c.before);
    FieldsFrame(start, c.before);
    BodylessStays(start, c.before);
  }

  /** So the status line of the reply behind it is passed on as a header line, the status
      stays 100, and the reply is over at its empty line. */
  lemma FinalBehindContinue(p: Parse, c: Reply, r: Reply)
    requires Ready(p) && p.recvq != [] && !p.recvq[0].isHead && StatusWritten(c) && c.Status() == 100 && Fieldlike(c.before)
    requires StatusLegal(r) && Fieldlike(Fields(r))
    ensures var q := Run(p, HeadText(c, c.before) + HeadText(r, Fields(r)));
            && q.phase.Done? && !q.bad && q.line == "" && q.recvq == p.recvq && q.status == 100
            && q.signals == p.signals + [RecvStart(p.Id(), c.Version(), 100)] + HeaderSignals(p.Id(), c.before)
                            + HeaderSignals(p.Id(), [StatusText(r)] + Fields(r))
  {
    var lines := [StatusText(r)] + Fields(r);
    var q := Run(p, HeadText(c, c.before));
    RunInterim(p, c);
    HeadTextIs(r, Fields(r));
    RunConcat(p, HeadText(c, c.before), HeadText(r, Fields(r)));
    RunFieldsToEnd(q, lines);
    FieldsFrame(q, lines);
    BodylessStays(q, lines);
  }

  /** Its body, if it has one, is then taken for the next reply. */
  lemma BodyBehindContinue(p: Parse, c: Reply, r: Reply)
    requires Ready(p) && p.recvq != [] && !p.recvq[0].isHead && StatusWritten(c) && c.Status() == 100 && Fieldlike(c.before)
    requires StatusLegal(r) && Fieldlike(Fields(r)) && BodyText(r.body) != ""
    ensures |Run(p, HeadText(c, c.before) + ReplyText(r)).recvq| < |p.recvq|
  {
    var head := HeadText(c, c.before) + HeadText(r, Fields(r));
    FinalBehindContinue(p, c, r);
    assert HeadText(c, c.before) + ReplyText(r) == head + BodyText(r.body);
    RunConcat(p, head, BodyText(r.body));
    OverTooSoon(Run(p, head), BodyText(r.body));
  }

  // ---- bodies that end with the connection ----

  lemma CloseEndsBody(p: Parse, data: string)
    requires !p.bad && p.phase.Data? && p.recvq != [] && p.contentBytes == 0 && |data| < p.contentLength
    requires p.failureStatus != 0 ==> p.status != p.failureStatus
    ensures var q := AtEof(Run(p, data));
            q.recvq == p.recvq[1..]
            && q.signals == p.signals + DataSignals(p.Id(), data) + [RecvStop(p.Id())]
  {
    if data != "" {
      RunBodySegment(p, data);
    } else {
      assert p.signals + [] == p.signals;
    }
  }

  lemma RunUnframedHead(p: Parse, r: Reply)
    requires Ready(p) && p.recvq != []
    requires StatusLegal(r) && !NoBody(r.Status()) && !p.recvq[0].isHead
    requires Fieldlike(r.before) && NoFraming(r.before)
    ensures var q := AfterStatus(p, r, true);
            Run(p, HeadText(r, r.before)) == Framed(q, MAX_ULONG, false, true, r.before).(phase := Data)
  {
    var q := AfterStatus(p, r, true);
    RunHead(p, r, r.before);
    FieldsFrame(q, r.before);
    PlainFieldsKeepFraming(q, r.before);
  }

  /** p after the headers of an unframed reply r. */
  ghost predicate ReadsToClose(p: Parse, r: Reply, h: Parse) {
    && !h.bad && h.phase.Data? && h.recvq == p.recvq && h.contentBytes == 0 && h.contentLength == MAX_ULONG
    && h.failureStatus == p.failureStatus && h.status == r.Status()
    && h.signals == p.signals + [RecvStart(p.Id(), r.Version(), r.Status())] + HeaderSignals(p.Id(), r.before)
  }

  lemma HeadReadsToClose(p: Parse, r: Reply)
    requires Ready(p) && p.recvq != []
    requires StatusLegal(r) && !NoBody(r.Status()) && !p.recvq[0].isHead
    requires Fieldlike(r.before) && NoFraming(r.before)
    ensures ReadsToClose(p, r, Run(p, HeadText(r, r.before)))
  {
    RunUnframedHead(p, r);
  }

  ghost predicate ReadToClose(p: Parse, r: Reply, data: string, q: Parse)
    requires p.recvq != []
  {
    && q.recvq == p.recvq[1..]
    && q.signals == p.signals + [RecvStart(p.Id(), r.Version(), r.Status())] + HeaderSignals(p.Id(), r.before)
                    + DataSignals(p.Id(), data) + [RecvStop(p.Id())]
  }

  lemma CloseCompletes(p: Parse, r: Reply, data: string, h: Parse)
    requires p.recvq != [] && ReadsToClose(p, r, h) && |data| < MAX_ULONG
    requires p.failureStatus != 0 ==> r.Status() != p.failureStatus
    ensures ReadToClose(p, r, data, AtEof(Run(h, data)))
  {
    CloseEndsBody(h, data);
  }

  /** A reply with a body but no framing field is read until the server closes. */
  lemma CloseDelimitedRoundTrip(p: Parse, r: Reply, data: string)
    requires Ready(p) && p.recvq != [] && |data| < MAX_ULONG
    requires StatusLegal(r) && !NoBody(r.Status()) && !p.recvq[0].isHead
    requires Fieldlike(r.before) && NoFraming(r.before)
    requires p.failureStatus != 0 ==> r.Status() != p.failureStatus
    ensures ReadToClose(p, r, data, AtEof(Run(p, HeadText(r, r.before) + data)))
  {
    var head := HeadText(r, r.before);
    HeadReadsToClose(p, r);
    CloseCompletes(p, r, data, Run(p, head));
    RunConcat(p, head, data);
  }

  /** Segmentation and framing together: however the reads cut the stream, the
      program is told about exactly the replies that were written. */
  method ReceiveStream(c: ReplyParser.Conn, cuts: seq<string>, ghost replies: seq<Reply>)
    requires c.Valid() && Ready(c.View()) && StreamLegal(replies, c.recvq, c.failureStatus)
    requires forall i :: 0 <= i < |cuts| ==> cuts[i] != ""
    requires Concat(cuts) == StreamText(replies)
    modifies c, c.lineBuf
    ensures c.Valid() && Ready(c.View())
    ensures c.recvq == old(c.recvq)[|replies|..]
    ensures c.signals == old(c.signals) + StreamSignals(replies, old(c.recvq))
  {
    StreamRoundTrip(c.View(), replies);
    c.ReceiveReads(cuts);
  }
}

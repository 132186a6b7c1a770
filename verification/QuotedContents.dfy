/** The contents= argument of a wsesslog request: text in single or double quotes, with
    escapes, that may go on over several lines. */
module QuotedContents {
  datatype Quoting = Quoting(single: bool, double: bool, escaped: bool)

  /** What has been scanned and what comes behind it; Eof if the file ends in between. */
  datatype Result = Scanned(contents: string, rest: string, more: seq<string>) | Eof

  const OPEN := Quoting(false, false, false)

  predicate IsBlank(ch: char) {
    ch == '\t' || ch == '\n' || ch == ' '
  }

  function Unescaped(ch: char): char {
    match ch
    case 'n' => '\n'
    case 'r' => '\r'
    case 't' => '\t'
    case _ => ch
  }

  /** The character goes into the contents. */
  predicate Kept(q: Quoting, ch: char) {
    if ch == '"' then !q.double && q.single
    else if ch == '\'' then !q.single && q.double
    else if IsBlank(ch) then q.single || q.double
    else ch != '\\'
  }

  predicate Ended(text: string) {
    text == "" || text[0] == '\0'
  }

  /** The quoting behind a character that is not escaped. */
  function After(q: Quoting, ch: char): Quoting {
    if ch == '"' && q.double then q.(double := false)
    else if ch == '\'' && q.single then q.(single := false)
    else if ch == '\\' then q.(escaped := true)
    else if ch == '"' && !q.single then q.(double := true)
    else if ch == '\'' && !q.double then q.(single := true)
    else q
  }

  /** The rest of a line, the lines behind it, and what has been kept so far.  A NUL byte
      ends a line as its end does. */
  function Scan(text: string, more: seq<string>, q: Quoting, kept: string): Result
    decreases |more|, |text|
  {
    if Ended(text) then Scanned(kept, text, more)
    else
      var ch, tail := text[0], text[1..];
      if q.escaped then
        if ch == '\n' then
          if more == [] then Eof else Scan(more[0], more[1..], q.(escaped := false), kept + [ch])
        else Scan(tail, more, q.(escaped := false), kept + [Unescaped(ch)])
      else if IsBlank(ch) && !q.single && !q.double then Scanned(kept, tail, more)
      else Scan(tail, more, After(q, ch), if Kept(q, ch) then kept + [ch] else kept)
  }

  // ----- the lines of a file, as fgets delivers them

  /** How long the first line is, its line feed included. */
  function LineLength(file: string): (n: nat)
    ensures n <= |file| && (file != "" ==> n > 0)
  {
    if file == "" then 0 else if file[0] == '\n' then 1 else 1 + LineLength(file[1..])
  }

  function Lines(file: string): (lines: seq<string>)
    ensures file != "" ==> lines != []
  {
    if file == "" then [] else [file[..LineLength(file)]] + Lines(file[LineLength(file)..])
  }

  /** What the scanner makes of a file that goes on like this. */
  function ScanFile(file: string): Result
    requires file != ""
  {
    Scan(Lines(file)[0], Lines(file)[1..], OPEN, "")
  }

  lemma OneCharMore(c: char, file: string)
    requires c != '\n' && file != ""
    ensures Lines([c] + file) == [[c] + Lines(file)[0]] + Lines(file)[1..]
  {
    var more, n := [c] + file, LineLength(file);
    assert more[1..] == file;
    assert LineLength(more) == n + 1;
    assert more[..n + 1] == [c] + file[..n] && more[n + 1..] == file[n..];
    assert Lines(file)[0] == file[..n] && Lines(file)[1..] == Lines(file[n..]);
  }

  lemma Regroup(start: string, file: string)
    requires start != ""
    ensures [start[0]] + (start[1..] + file) == start + file
  {
    assert start == [start[0]] + start[1..];
  }

  lemma {:induction false} LineGoesOn(start: string, file: string)
    requires '\n' !in start && file != ""
    ensures Lines(start + file) == [start + Lines(file)[0]] + Lines(file)[1..]
    decreases |start|
  {
    if start == "" {
      assert start + file == file && start + Lines(file)[0] == Lines(file)[0];
    } else {
      LineGoesOn(start[1..], file);
      OneCharMore(start[0], start[1..] + file);
      Regroup(start, file);
      Regroup(start, Lines(file)[0]);
    }
  }

  lemma LineEnds(start: string, file: string)
    requires '\n' !in start
    ensures Lines(start + "\n" + file) == [start + "\n"] + Lines(file)
  {
    LineGoesOn(start, "\n" + file);
    assert start + ("\n" + file) == start + "\n" + file;
    assert ("\n" + file)[..1] == "\n" && ("\n" + file)[1..] == file;
  }

  // ----- writing contents so that they are read back

  function Escape(ch: char): string {
    match ch
    case '"' => "\\\""
    case '\\' => "\\\\"
    case '\n' => "\\n"
    case '\r' => "\\r"
    case '\t' => "\\t"
    case _ => [ch]
  }

  function Escaped(contents: string): string {
    if contents == "" then "" else Escape(contents[0]) + Escaped(contents[1..])
  }

  lemma ScanEscape(ch: char, tail: string, more: seq<string>, kept: string)
    requires ch != '\0'
    ensures Scan(Escape(ch) + tail, more, OPEN.(double := true), kept) == Scan(tail, more, OPEN.(double := true), kept + [ch])
  {
    var q := OPEN.(double := true);
    var text := Escape(ch) + tail;
    if |Escape(ch)| == 2 {
      assert text[1..][0] == Escape(ch)[1] && text[1..][1..] == tail;
      assert Unescaped(Escape(ch)[1]) == ch;
      assert Scan(text, more, q, kept) == Scan(text[1..], more, q.(escaped := true), kept);
    } else {
      assert text[1..] == tail;
    }
  }

  lemma EscapedCons(contents: string, tail: string)
    requires contents != ""
    ensures Escaped(contents) + tail == Escape(contents[0]) + (Escaped(contents[1..]) + tail)
  {
  }

  lemma {:induction false} ScanEscaped(contents: string, tail: string, more: seq<string>, kept: string)
    requires '\0' !in contents
    ensures Scan(Escaped(contents) + tail, more, OPEN.(double := true), kept)
         == Scan(tail, more, OPEN.(double := true), kept + contents)
    decreases |contents|
  {
    if contents == "" {
      assert Escaped(contents) + tail == tail && kept + contents == kept;
    } else {
      EscapedCons(contents, tail);
      ScanEscape(contents[0], Escaped(contents[1..]) + tail, more, kept);
      ScanEscaped(contents[1..], tail, more, kept + [contents[0]]);
      assert kept + [contents[0]] + contents[1..] == kept + contents;
    }
  }

  lemma ScanQuote(quote: char, tail: string, more: seq<string>, q: Quoting, kept: string)
    requires (quote == '"' && !q.single) || (quote == '\'' && !q.double)
    requires !q.escaped
    ensures Scan([quote] + tail, more, q, kept) == Scan(tail, more, After(q, quote), kept)
  {
    assert ([quote] + tail)[1..] == tail;
  }

  lemma ScanBlank(blank: char, rest: string, more: seq<string>, kept: string)
    requires IsBlank(blank)
    ensures Scan([blank] + rest, more, OPEN, kept) == Scanned(kept, rest, more)
  {
    assert ([blank] + rest)[1..] == rest;
  }

  /** A NUL byte ends the contents. */
  lemma ScanNul(tail: string, more: seq<string>, q: Quoting, kept: string)
    ensures Scan(['\0'] + tail, more, q, kept) == Scanned(kept, ['\0'] + tail, more)
  {
  }

  lemma {:induction false} EscapedIn(contents: string, k: nat)
    requires k <= |contents|
    ensures Escaped(contents) == Escaped(contents[..k]) + Escaped(contents[k..])
    decreases k
  {
    if k == 0 {
      assert contents[0..] == contents && contents[..0] == "";
    } else {
      EscapedIn(contents[1..], k - 1);
      assert contents[..k][1..] == contents[1..][..k - 1] && contents[1..][k - 1..] == contents[k..];
    }
  }

  lemma {:induction false} EscapedOnOneLine(contents: string)
    ensures '\n' !in Escaped(contents)
  {
    if contents != "" {
      EscapedOnOneLine(contents[1..]);
    }
  }

  /** Where a character first comes. */
  lemma {:induction false} FirstIn(s: string, c: char) returns (k: nat)
    requires c in s
    ensures k < |s| && s[k] == c && c !in s[..k]
  {
    k := 0;
    while s[k] != c
      invariant k < |s| && c !in s[..k] && c in s[k..]
      decreases |s| - k
    {
      assert s[k..][1..] == s[k + 1..] && s[..k + 1] == s[..k] + [s[k]];
      k := k + 1;
    }
  }

  /** Contents between quotes, the blank behind them, and the rest of the file. */
  function InQuotes(quote: char, written: string, behind: string): string {
    [quote] + (written + ([quote] + behind))
  }

  /** The contents are read back, and the next argument begins behind the blank. */
  predicate ReadBack(file: string, contents: string, behind: string)
    requires file != "" && behind != ""
  {
    ScanFile(file) == Scanned(contents, Lines(behind)[0][1..], Lines(behind)[1..])
  }

  lemma QuotesInFront(quote: char, written: string, behind: string)
    ensures InQuotes(quote, written, behind) == [quote] + written + [quote] + behind
  {
  }

  lemma QuotedLine(quote: char, written: string, behind: string)
    requires '\n' !in written && quote != '\n' && behind != ""
    ensures Lines(InQuotes(quote, written, behind))
         == [InQuotes(quote, written, Lines(behind)[0])] + Lines(behind)[1..]
  {
    QuotesInFront(quote, written, behind);
    QuotesInFront(quote, written, Lines(behind)[0]);
    LineGoesOn([quote] + written + [quote], behind);
  }

  lemma EscapedReadBack(contents: string, line: string, more: seq<string>)
    requires '\0' !in contents && line != "" && IsBlank(line[0])
    ensures Scan(InQuotes('"', Escaped(contents), line), more, OPEN, "") == Scanned(contents, line[1..], more)
  {
    ScanQuote('"', Escaped(contents) + (['"'] + line), more, OPEN, "");
    ScanEscaped(contents, ['"'] + line, more, "");
    ScanQuote('"', line, more, OPEN.(double := true), "" + contents);
    assert line == [line[0]] + line[1..];
    ScanBlank(line[0], line[1..], more, "" + contents);
    assert "" + contents == contents;
  }

  lemma EscapedCut(contents: string, k: nat, line: string, more: seq<string>) returns (rest: string)
    requires k < |contents| && contents[k] == '\0' && '\0' !in contents[..k]
    ensures Scan(InQuotes('"', Escaped(contents), line), more, OPEN, "") == Scanned(contents[..k], rest, more)
  {
    var tail := Escaped(contents[k + 1..]) + (['"'] + line);
    rest := ['\0'] + tail;
    EscapedIn(contents, k);
    assert contents[k..][1..] == contents[k + 1..];
    assert Escaped(contents) + (['"'] + line) == Escaped(contents[..k]) + rest;
    ScanQuote('"', Escaped(contents) + (['"'] + line), more, OPEN, "");
    ScanEscaped(contents[..k], rest, more, "");
    assert "" + contents[..k] == contents[..k];
    ScanNul(tail, more, OPEN.(double := true), contents[..k]);
  }

  /** Contents can be written in double quotes and are read back if and only if there is
      no NUL byte in them. */
  lemma DoubleQuoted(contents: string, behind: string)
    requires behind != "" && IsBlank(behind[0])
    ensures ReadBack(InQuotes('"', Escaped(contents), behind), contents, behind) <==> '\0' !in contents
  {
    var line, more := Lines(behind)[0], Lines(behind)[1..];
    EscapedOnOneLine(contents);
    QuotedLine('"', Escaped(contents), behind);
    if '\0' !in contents {
      EscapedReadBack(contents, line, more);
    } else {
      var k := FirstIn(contents, '\0');
      var rest := EscapedCut(contents, k, line, more);
    }
  }

  /** In single quotes these stand for themselves, but for line ends and NUL bytes. */
  predicate Plain(contents: string) {
    '\'' !in contents && '\\' !in contents
  }

  lemma {:induction false} ScanPlain(contents: string, tail: string, more: seq<string>, kept: string)
    requires Plain(contents) && '\0' !in contents
    ensures Scan(contents + tail, more, OPEN.(single := true), kept) == Scan(tail, more, OPEN.(single := true), kept + contents)
    decreases |contents|
  {
    if contents == "" {
      assert contents + tail == tail && kept + contents == kept;
    } else {
      assert (contents + tail)[1..] == contents[1..] + tail;
      ScanPlain(contents[1..], tail, more, kept + [contents[0]]);
      assert kept + [contents[0]] + contents[1..] == kept + contents;
    }
  }

  lemma PlainReadBack(contents: string, line: string, more: seq<string>)
    requires Plain(contents) && '\0' !in contents && line != "" && IsBlank(line[0])
    ensures Scan(InQuotes('\'', contents, line), more, OPEN, "") == Scanned(contents, line[1..], more)
  {
    ScanQuote('\'', contents + (['\''] + line), more, OPEN, "");
    ScanPlain(contents, ['\''] + line, more, "");
    ScanQuote('\'', line, more, OPEN.(single := true), "" + contents);
    assert line == [line[0]] + line[1..];
    ScanBlank(line[0], line[1..], more, "" + contents);
    assert "" + contents == contents;
  }

  lemma PlainCut(before: string, tail: string, more: seq<string>)
    requires Plain(before) && '\0' !in before && Ended(tail)
    ensures Scan(['\''] + (before + tail), more, OPEN, "") == Scanned(before, tail, more)
  {
    ScanQuote('\'', before + tail, more, OPEN, "");
    ScanPlain(before, tail, more, "");
    assert "" + before == before;
  }

  /** The first line of the file ends inside the quotes. */
  lemma CutLine(contents: string, k: nat, behind: string)
    requires Plain(contents) && k < |contents| && contents[k] == '\n' && '\n' !in contents[..k] && behind != ""
    ensures var rest := contents[k + 1..] + (['\''] + behind);
            && Lines(InQuotes('\'', contents, behind)) == [['\''] + contents[..k + 1]] + Lines(rest)
            && (rest == ['\''] + behind ==> |Lines(rest)| == |Lines(behind)|)
  {
    var rest := contents[k + 1..] + (['\''] + behind);
    assert InQuotes('\'', contents, behind) == ['\''] + contents[..k] + "\n" + rest;
    LineEnds(['\''] + contents[..k], rest);
    assert ['\''] + contents[..k] + "\n" == ['\''] + contents[..k + 1];
    if rest == ['\''] + behind {
      LineGoesOn(['\''], behind);
    }
  }

  lemma CutLineNotReadBack(contents: string, k: nat, behind: string)
    requires Plain(contents) && k < |contents| && contents[k] == '\n' && '\n' !in contents[..k] && behind != ""
    ensures !ReadBack(InQuotes('\'', contents, behind), contents, behind)
  {
    CutLine(contents, k, behind);
    var rest := contents[k + 1..] + (['\''] + behind);
    var first := contents[..k + 1];
    if '\0' !in first {
      PlainCut(first, "", Lines(rest));
      assert first + "" == first;
      if k + 1 == |contents| {
        assert rest == ['\''] + behind;
      }
    } else {
      var n := FirstIn(first, '\0');
      PlainCut(first[..n], first[n..], Lines(rest));
      assert first[..n] + first[n..] == first;
    }
  }

  lemma OnOneLine(contents: string, behind: string)
    requires Plain(contents) && '\n' !in contents && behind != "" && IsBlank(behind[0])
    ensures ReadBack(InQuotes('\'', contents, behind), contents, behind) <==> '\0' !in contents
  {
    var line, more := Lines(behind)[0], Lines(behind)[1..];
    QuotedLine('\'', contents, behind);
    if '\0' !in contents {
      PlainReadBack(contents, line, more);
    } else {
      var k := FirstIn(contents, '\0');
      var tail := contents[k..] + (['\''] + line);
      PlainCut(contents[..k], tail, more);
      assert contents[..k] + tail == contents + (['\''] + line);
    }
  }

  /** Plain contents in single quotes are read back if and only if they have neither line
      ends nor NUL bytes in them. */
  lemma SingleQuoted(contents: string, behind: string)
    requires Plain(contents) && behind != "" && IsBlank(behind[0])
    ensures ReadBack(InQuotes('\'', contents, behind), contents, behind) <==> '\0' !in contents && '\n' !in contents
  {
    if '\n' !in contents {
      OnOneLine(contents, behind);
    } else {
      var k := FirstIn(contents, '\n');
      CutLineNotReadBack(contents, k, behind);
    }
  }

  // ----- the loop

  function Size(text: string, more: seq<string>): nat
    decreases |more|
  {
    if more == [] then |text| else |text| + Size(more[0], more[1..])
  }

  method Put(contents: array<char>, len: nat, ch: char)
    requires len < contents.Length
    modifies contents
    ensures contents[..len + 1] == old(contents[..len]) + [ch]
  {
    contents[len] := ch;
  }

  /** The scanning loop of parse_config, which writes the contents into a buffer and
      reads on in the file behind an escaped line end. */
  method ScanContents(line: string, lines: seq<string>, contents: array<char>)
    returns (eof: bool, len: nat, rest: string, more: seq<string>)
    requires Size(line, lines) < contents.Length
    modifies contents
    ensures eof <==> Scan(line, lines, OPEN, "").Eof?
    ensures !eof ==> len < contents.Length && contents[len] == '\0'
    ensures !eof ==> Scan(line, lines, OPEN, "") == Scanned(contents[..len], rest, more)
  {
    rest, more, len, eof := line, lines, 0, false;
    var q, done := OPEN, false;
    while !Ended(rest) && !done
      invariant len + Size(rest, more) < contents.Length
      invariant !done ==> Scan(rest, more, q, contents[..len]) == Scan(line, lines, OPEN, "")
      invariant done ==> Scanned(contents[..len], rest, more) == Scan(line, lines, OPEN, "")
      decreases |more|, |rest|
    {
      var ch := rest[0];
      rest := rest[1..];
      if q.escaped {
        Put(contents, len, Unescaped(ch));
        len := len + 1;
        if ch == '\n' {
          if more == [] {
            eof := true;
            return;
          }
          rest, more := more[0], more[1..];
        }
        q := q.(escaped := false);
      } else if IsBlank(ch) && !q.single && !q.double {
        done := true;
      } else {
        if Kept(q, ch) {
          Put(contents, len, ch);
          len := len + 1;
        }
        q := After(q, ch);
      }
    }
    contents[len] := '\0';
  }
}

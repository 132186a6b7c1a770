/** The contents= argument as it is written: stretches without quotes, in single and in double
    quotes, one behind the other, with escapes in all of them, up to a blank or a line end. */
module QuotedSpelling {
  import opened QuotedContents

  datatype Unit = Literal(ch: char) | Slashed(ch: char)

  datatype Quote = NoQuotes | InSingle | InDouble

  datatype Stretch = Stretch(quote: Quote, units: seq<Unit>)

  /** A backslash makes three letters stand for control characters, and of everything else
      just itself. */
  function UnitValue(u: Unit): char {
    match u
    case Literal(ch) => ch
    case Slashed(ch) => if ch == 'n' then '\n' else if ch == 'r' then '\r' else if ch == 't' then '\t' else ch
  }

  function UnitText(u: Unit): string {
    if u.Literal? then [u.ch] else ['\\', u.ch]
  }

  /** Quotes of the other kind, and blanks, are characters like any other inside of quotes. */
  predicate UnitLegal(quote: Quote, u: Unit) {
    match u
    case Slashed(ch) => ch != '\0' && ch != '\n'
    case Literal(ch) =>
      && ch != '\0' && ch != '\\'
      && match quote
         case NoQuotes => ch != '"' && ch != '\'' && ch != ' ' && ch != '\t' && ch != '\n'
         case InSingle => ch != '\''
         case InDouble => ch != '"'
  }

  predicate UnitsLegal(quote: Quote, units: seq<Unit>) {
    forall k :: 0 <= k < |units| ==> UnitLegal(quote, units[k])
  }

  predicate AllLegal(stretches: seq<Stretch>) {
    forall k :: 0 <= k < |stretches| ==> UnitsLegal(stretches[k].quote, stretches[k].units)
  }

  function UnitsText(units: seq<Unit>): string {
    if units == [] then "" else UnitText(units[0]) + UnitsText(units[1..])
  }

  function UnitsValue(units: seq<Unit>): string {
    if units == [] then "" else [UnitValue(units[0])] + UnitsValue(units[1..])
  }

  function QuoteText(quote: Quote): string {
    match quote
    case NoQuotes => ""
    case InSingle => "'"
    case InDouble => "\""
  }

  function StretchText(s: Stretch): string {
    QuoteText(s.quote) + (UnitsText(s.units) + QuoteText(s.quote))
  }

  function AllText(stretches: seq<Stretch>): string {
    if stretches == [] then "" else StretchText(stretches[0]) + AllText(stretches[1..])
  }

  function AllValues(stretches: seq<Stretch>): string {
    if stretches == [] then "" else UnitsValue(stretches[0].units) + AllValues(stretches[1..])
  }

  function Within(quote: Quote): Quoting {
    Quoting(quote.InSingle?, quote.InDouble?, false)
  }

  lemma ScanUnit(quote: Quote, u: Unit, tail: string, more: seq<string>, kept: string)
    requires UnitLegal(quote, u)
    ensures Scan(UnitText(u) + tail, more, Within(quote), kept) == Scan(tail, more, Within(quote), kept + [UnitValue(u)])
  {
    var q, text := Within(quote), UnitText(u) + tail;
    if u.Slashed? {
      assert text[1..] == [u.ch] + tail && text[1..][1..] == tail;
      assert Scan(text, more, q, kept) == Scan(text[1..], more, q.(escaped := true), kept);
    } else {
      assert text[1..] == tail;
    }
  }

  lemma {:induction false} ScanUnits(quote: Quote, units: seq<Unit>, tail: string, more: seq<string>, kept: string)
    requires UnitsLegal(quote, units)
    ensures Scan(UnitsText(units) + tail, more, Within(quote), kept)
         == Scan(tail, more, Within(quote), kept + UnitsValue(units))
    decreases |units|
  {
    if units == [] {
      assert UnitsText(units) + tail == tail && kept + UnitsValue(units) == kept;
    } else {
      var u, others := units[0], units[1..];
      Reassociate(UnitText(u), UnitsText(others), tail);
      ScanUnit(quote, u, UnitsText(others) + tail, more, kept);
      ScanUnits(quote, others, tail, more, kept + [UnitValue(u)]);
      Reassociate(kept, [UnitValue(u)], UnitsValue(others));
    }
  }

  lemma Reassociate(a: string, b: string, c: string)
    ensures a + (b + c) == a + b + c
  {
  }

  lemma QuoteOpens(quote: Quote, tail: string, more: seq<string>, kept: string)
    ensures Scan(QuoteText(quote) + tail, more, OPEN, kept) == Scan(tail, more, Within(quote), kept)
  {
    var text := QuoteText(quote) + tail;
    if quote.NoQuotes? {
      assert text == tail;
    } else {
      assert text[1..] == tail;
    }
  }

  lemma QuoteCloses(quote: Quote, tail: string, more: seq<string>, kept: string)
    ensures Scan(QuoteText(quote) + tail, more, Within(quote), kept) == Scan(tail, more, OPEN, kept)
  {
    var text := QuoteText(quote) + tail;
    if quote.NoQuotes? {
      assert text == tail;
    } else {
      assert text[1..] == tail;
    }
  }

  lemma ScanStretch(s: Stretch, tail: string, more: seq<string>, kept: string)
    requires UnitsLegal(s.quote, s.units)
    ensures Scan(StretchText(s) + tail, more, OPEN, kept) == Scan(tail, more, OPEN, kept + UnitsValue(s.units))
  {
    var q := QuoteText(s.quote);
    Reassociate(q, UnitsText(s.units) + q, tail);
    Reassociate(UnitsText(s.units), q, tail);
    QuoteOpens(s.quote, UnitsText(s.units) + (q + tail), more, kept);
    ScanUnits(s.quote, s.units, q + tail, more, kept);
    QuoteCloses(s.quote, tail, more, kept + UnitsValue(s.units));
  }

  lemma {:induction false} ScanStretches(stretches: seq<Stretch>, tail: string, more: seq<string>, kept: string)
    requires AllLegal(stretches)
    ensures Scan(AllText(stretches) + tail, more, OPEN, kept) == Scan(tail, more, OPEN, kept + AllValues(stretches))
    decreases |stretches|
  {
    if stretches == [] {
      assert AllText(stretches) + tail == tail && kept + AllValues(stretches) == kept;
    } else {
      var s, others := stretches[0], stretches[1..];
      Reassociate(StretchText(s), AllText(others), tail);
      ScanStretch(s, AllText(others) + tail, more, kept);
      ScanStretches(others, tail, more, kept + UnitsValue(s.units));
      Reassociate(kept, UnitsValue(s.units), AllValues(others));
    }
  }

  /** Any such writing is read back, up to the blank, tab or line feed behind it or the end of
      the line, wherever quotes begin and end in it. */
  lemma StretchesReadBack(stretches: seq<Stretch>, blank: char, rest: string, more: seq<string>)
    requires AllLegal(stretches) && (blank == ' ' || blank == '\t' || blank == '\n')
    ensures Scan(AllText(stretches) + ([blank] + rest), more, OPEN, "") == Scanned(AllValues(stretches), rest, more)
    ensures Scan(AllText(stretches), more, OPEN, "") == Scanned(AllValues(stretches), "", more)
  {
    ScanStretches(stretches, [blank] + rest, more, "");
    ScanStretches(stretches, "", more, "");
    assert AllText(stretches) + "" == AllText(stretches) && "" + AllValues(stretches) == AllValues(stretches);
    assert ([blank] + rest)[1..] == rest;
  }

  /** A backslash at the end of a line, inside quotes or outside: the line end is kept, and
      the contents go on in the next line, within the same quotes. */
  lemma LineContinued(before: seq<Stretch>, quote: Quote, units: seq<Unit>, behind: string, more: seq<string>)
    requires AllLegal(before) && UnitsLegal(quote, units) && more != []
    ensures Scan(AllText(before) + (QuoteText(quote) + (UnitsText(units) + "\\\n" + behind)), more, OPEN, "")
         == Scan(more[0], more[1..], Within(quote), AllValues(before) + UnitsValue(units) + "\n")
  {
    var end := "\\\n" + behind;
    var kept := AllValues(before) + UnitsValue(units);
    Reassociate(UnitsText(units), "\\\n", behind);
    ScanStretches(before, QuoteText(quote) + (UnitsText(units) + end), more, "");
    assert "" + AllValues(before) == AllValues(before);
    QuoteOpens(quote, UnitsText(units) + end, more, AllValues(before));
    ScanUnits(quote, units, end, more, AllValues(before));
    assert end[1..] == "\n" + behind && ("\n" + behind)[1..] == behind;
    assert Scan(end, more, Within(quote), kept) == Scan(end[1..], more, Within(quote).(escaped := true), kept);
    assert kept + "\n" == kept + ['\n'];
  }

  /** And where there is no next line, the scan ends without contents. */
  lemma NothingToContinue(before: seq<Stretch>, behind: string)
    requires AllLegal(before)
    ensures Scan(AllText(before) + ("\\\n" + behind), [], OPEN, "") == Eof
  {
    var end := "\\\n" + behind;
    ScanStretches(before, end, [], "");
    assert end[1..] == "\n" + behind;
    assert Scan(end, [], OPEN, "" + AllValues(before)) == Scan(end[1..], [], OPEN.(escaped := true), "" + AllValues(before));
  }
}

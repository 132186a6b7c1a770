/** Command lines as they are written, mistakes included, and the proof that a scan takes them
    apart into the options, mistakes and operands they were made of. */
module ArgumentSpelling {
  import opened Shared
  import opened Getopt

  type Reported = seq<(int, Option<string>)>

  /** How an argument is given: not at all, in the word of its option, or as the next. */
  datatype Given = Nothing | Joined(value: string) | Next(value: string)
  {
    function Value(): Option<string> { if Nothing? then None else Some(value) }

    function Words(): seq<string> { if Next? then [value] else [] }
  }

  /** A long option, by its name or a part of it that stands for it; a name that stands for
      none, perhaps with a value; or one with a value that it does not take. */
  datatype LongOpt =
    | Proper(index: nat, name: string, arg: Given)
    | Unnamed(name: string, value: Option<string>)
    | Surplus(index: nat, name: string, text: string)
  {
    function Arg(): Given {
      match this
      case Proper(_, _, arg) => arg
      case Unnamed(_, value) => if value.None? then Nothing else Joined(value.value)
      case Surplus(_, _, text) => Joined(text)
    }

    function Text(): string { name + JoinedText(Arg(), "=") }
  }

  /** A long option; letters in one word, the last perhaps with an argument; letters of which
      the last is a W in front of a long option, in the same word or the next; the letter '-',
      a word to itself; or an operand. */
  datatype Item =
    | Long(opt: LongOpt)
    | Letters(flags: string, last: Option<char>, arg: Given)
    | BehindW(flags: string, joined: bool, opt: LongOpt)
    | Dash(arg: Given)
    | Operand(word: string)

  // ----- what may be written

  predicate Known(sx: Syntax, c: char) {
    c != ':' && c != '-' && Listed(sx, c)
  }

  predicate Listed(sx: Syntax, c: char) {
    c in sx.options
  }

  /** What stands behind the letter, its first occurrence, in the option string. */
  function Behind(sx: Syntax, c: char): string
    requires Listed(sx, c)
  {
    ListedAt(sx.options, c);
    sx.options[IndexOf(sx.options, c) + 1..]
  }

  lemma ListedAt(s: string, c: char)
    ensures c in s <==> IndexOf(s, c) < |s|
  {
  }

  predicate FlagLetter(sx: Syntax, c: char) {
    && Known(sx, c) && (Behind(sx, c) == "" || Behind(sx, c)[0] != ':')
    && !(c == 'W' && Behind(sx, c) != "" && Behind(sx, c)[0] == ';')
  }

  predicate ArgumentLetter(sx: Syntax, c: char) {
    Known(sx, c) && Behind(sx, c) != "" && Behind(sx, c)[0] == ':'
  }

  predicate MayLack(sx: Syntax, c: char)
    requires ArgumentLetter(sx, c)
  {
    |Behind(sx, c)| > 1 && Behind(sx, c)[1] == ':'
  }

  /** A letter that is none of the options. */
  predicate UnknownLetter(sx: Syntax, c: char) {
    c == ':' || (c != '-' && !Listed(sx, c))
  }

  ghost predicate LongLegal(sx: Syntax, o: LongOpt) {
    && '=' !in o.name && o.Text() != ""
    && match o
       case Proper(index, name, arg) => StandsFor(name, sx.longOptions, index) && Suits(sx.longOptions[index].hasArg, arg)
       case Unnamed(name, _) => StandsForNone(name, sx.longOptions)
       case Surplus(index, name, _) => StandsFor(name, sx.longOptions, index) && sx.longOptions[index].hasArg.NoArgument?
  }

  predicate Suits(hasArg: HasArg, arg: Given) {
    match hasArg
    case NoArgument => arg.Nothing?
    case RequiredArgument => !arg.Nothing?
    case OptionalArgument => !arg.Next?
  }

  /** The letter in front of long options. */
  predicate TakesLong(sx: Syntax) {
    Known(sx, 'W') && Behind(sx, 'W') != "" && Behind(sx, 'W')[0] == ';'
  }

  predicate DashLegal(sx: Syntax, arg: Given) {
    && Listed(sx, '-')
    && var b := Behind(sx, '-');
       if b == "" || b[0] != ':' || (|b| > 1 && b[1] == ':') then arg.Nothing? else arg.Next?
  }

  predicate AllFlags(sx: Syntax, flags: string) {
    forall k :: 0 <= k < |flags| ==> FlagLetter(sx, flags[k]) || UnknownLetter(sx, flags[k])
  }

  predicate LettersLegal(sx: Syntax, item: Item)
    requires item.Letters?
  {
    && AllFlags(sx, item.flags)
    && match item.last
       case None => item.flags != "" && item.arg.Nothing?
       case Some(c) => ArgumentLetter(sx, c) && ArgumentLegal(sx, c, item.arg)
  }

  predicate ArgumentLegal(sx: Syntax, c: char, arg: Given)
    requires ArgumentLetter(sx, c)
  {
    match arg
    case Nothing => MayLack(sx, c)
    case Joined(value) => value != ""
    case Next(_) => !MayLack(sx, c)
  }

  ghost predicate Legal(sx: Syntax, item: Item) {
    match item
    case Long(o) => LongLegal(sx, o)
    case Letters(_, _, _) => LettersLegal(sx, item)
    case BehindW(flags, _, o) => TakesLong(sx) && AllFlags(sx, flags) && LongLegal(sx, o)
    case Dash(arg) => DashLegal(sx, arg)
    case Operand(word) => word == "" || word[0] != '-' || (word == "-" && '-' !in sx.options)
  }

  // ----- writing

  function JoinedText(arg: Given, sign: string): string {
    if arg.Joined? then sign + arg.value else ""
  }

  /** The letters of a word behind its dash. */
  function LettersText(flags: string, last: Option<char>, arg: Given): string {
    flags + if last.Some? then [last.value] + JoinedText(arg, "") else ""
  }

  function ItemWords(item: Item): seq<string> {
    match item
    case Long(o) => ["--" + o.Text()] + o.Arg().Words()
    case Letters(flags, last, arg) => ["-" + LettersText(flags, last, arg)] + arg.Words()
    case BehindW(flags, joined, o) => BehindWWords(flags, joined, o.Text()) + o.Arg().Words()
    case Dash(arg) => ["-"] + arg.Words()
    case Operand(word) => [word]
  }

  function BehindWWords(flags: string, joined: bool, text: string): seq<string> {
    if joined then ["-" + (flags + (['W'] + text))] else ["-" + (flags + ['W']), text]
  }

  function AllWords(items: seq<Item>): seq<string> {
    if items == [] then [] else ItemWords(items[0]) + AllWords(items[1..])
  }

  /** How a line ends: with nothing more, or a "--" and words that are not looked at; or with
      an option that lacks its argument: a long one, a letter, a W without its long option, a
      long option behind a W, or the letter '-'. */
  datatype Ending =
    | Ending(dashes: bool, rest: seq<string>)
    | LacksLong(index: nat, name: string)
    | LacksLetter(flags: string, letter: char)
    | LacksName(flags: string)
    | LacksBehindW(flags: string, joined: bool, index: nat, name: string)
    | LacksDash
  {
    ghost predicate Legal(sx: Syntax) {
      match this
      case Ending(dashes, rest) => !dashes ==> rest == []
      case LacksLong(index, name) => LongLacks(sx, index, name)
      case LacksLetter(flags, c) => AllFlags(sx, flags) && ArgumentLetter(sx, c) && !MayLack(sx, c)
      case LacksName(flags) => TakesLong(sx) && AllFlags(sx, flags)
      case LacksBehindW(flags, _, index, name) => TakesLong(sx) && AllFlags(sx, flags) && LongLacks(sx, index, name)
      case LacksDash => Listed(sx, '-') && DashLacks(Behind(sx, '-'))
    }

    function Words(): seq<string> { OptionWords() + Rest() }

    /** Those that are sorted to the options. */
    function OptionWords(): seq<string> {
      match this
      case Ending(dashes, _) => if dashes then ["--"] else []
      case LacksLong(_, name) => ["--" + name]
      case LacksLetter(flags, c) => ["-" + (flags + [c])]
      case LacksName(flags) => ["-" + (flags + ['W'])]
      case LacksBehindW(flags, joined, _, name) => BehindWWords(flags, joined, name)
      case LacksDash => ["-"]
    }

    function Rest(): seq<string> { if Ending? then rest else [] }

    function Report(sx: Syntax): Reported {
      match this
      case Ending(_, _) => []
      case LacksLong(_, _) => [Complaint(sx)]
      case LacksLetter(flags, _) => LettersReport(sx, flags, None, Nothing) + [Complaint(sx)]
      case LacksName(flags) => LettersReport(sx, flags, None, Nothing) + [Complaint(sx)]
      case LacksBehindW(flags, _, _, _) => LettersReport(sx, flags, None, Nothing) + [Complaint(sx)]
      case LacksDash => [Complaint(sx)]
    }
  }

  ghost predicate LongLacks(sx: Syntax, index: nat, name: string) {
    && name != "" && '=' !in name && StandsFor(name, sx.longOptions, index)
    && sx.longOptions[index].hasArg.RequiredArgument?
  }

  predicate DashLacks(behind: string) {
    behind != "" && behind[0] == ':' && !(|behind| > 1 && behind[1] == ':')
  }

  // ----- what the caller is to be told

  /** What an option is reported as that lacks its argument, or has one too many. */
  function Complaint(sx: Syntax): (int, Option<string>) {
    (if sx.options != "" && sx.options[0] == ':' then ':' as int else '?' as int, None)
  }

  function LetterReport(sx: Syntax, c: char): (int, Option<string>) {
    (if UnknownLetter(sx, c) then '?' as int else c as int, None)
  }

  function LettersReport(sx: Syntax, flags: string, last: Option<char>, arg: Given): Reported {
    if flags != "" then [LetterReport(sx, flags[0])] + LettersReport(sx, flags[1..], last, arg)
    else if last.Some? then [(last.value as int, arg.Value())]
    else []
  }

  ghost function LongReport(sx: Syntax, o: LongOpt): (int, Option<string>)
    requires LongLegal(sx, o)
  {
    match o
    case Proper(index, _, arg) => (if sx.longOptions[index].setsFlag then 0 else sx.longOptions[index].val, arg.Value())
    case Unnamed(_, _) => ('?' as int, None)
    case Surplus(_, _, _) => Complaint(sx)
  }

  ghost function ItemReport(sx: Syntax, item: Item): Reported
    requires Legal(sx, item)
  {
    match item
    case Long(o) => [LongReport(sx, o)]
    case Letters(flags, last, arg) => LettersReport(sx, flags, last, arg)
    case BehindW(flags, _, o) => LettersReport(sx, flags, None, Nothing) + [LongReport(sx, o)]
    case Dash(arg) => [('-' as int, arg.Value())]
    case Operand(_) => []
  }

  ghost predicate AllLegal(sx: Syntax, items: seq<Item>) {
    forall k :: 0 <= k < |items| ==> Legal(sx, items[k])
  }

  ghost function AllReports(sx: Syntax, items: seq<Item>): Reported
    requires AllLegal(sx, items)
  {
    if items == [] then [] else ItemReport(sx, items[0]) + AllReports(sx, items[1..])
  }

  function OptionWords(items: seq<Item>): seq<string> {
    if items == [] then []
    else (if items[0].Operand? then [] else ItemWords(items[0])) + OptionWords(items[1..])
  }

  function Operands(items: seq<Item>): seq<string> {
    if items == [] then []
    else (if items[0].Operand? then [items[0].word] else []) + Operands(items[1..])
  }

  // ----- reading long options back

  lemma {:induction false} IndexBehind(s: string, c: char, tail: string)
    requires c !in s
    ensures IndexOf(s + ([c] + tail), c) == |s| && IndexOf(s, c) == |s|
    decreases |s|
  {
    if s == "" {
      assert s + ([c] + tail) == [c] + tail;
    } else {
      assert (s + ([c] + tail))[1..] == s[1..] + ([c] + tail);
      IndexBehind(s[1..], c, tail);
    }
  }

  /** words from i on: these, and then others. */
  predicate StandsAt(words: seq<string>, i: nat, these: seq<string>) {
    i + |these| <= |words| && words[i..i + |these|] == these
  }

  /** This word stands at i, and the argument behind it if it is the next. */
  ghost predicate Written(words: seq<string>, i: nat, first: string, arg: Given) {
    && i + 1 + |arg.Words()| <= |words| && words[i] == first && (arg.Next? ==> words[i + 1] == arg.value)
  }

  lemma StandsWritten(words: seq<string>, i: nat, first: string, arg: Given)
    requires StandsAt(words, i, [first] + arg.Words())
    ensures Written(words, i, first, arg)
  {
    var these := [first] + arg.Words();
    assert words[i..i + |these|][0] == words[i];
    assert arg.Next? ==> these[1] == arg.value && words[i..i + |these|][1] == words[i + 1];
  }

  lemma StandsTwo(words: seq<string>, i: nat, first: string, second: string, arg: Given)
    requires StandsAt(words, i, [first, second] + arg.Words())
    ensures i < |words| && words[i] == first && Written(words, i + 1, second, arg)
  {
    var these := [first, second] + arg.Words();
    assert words[i..i + |these|][0] == words[i] && words[i..i + |these|][1] == words[i + 1];
    assert arg.Next? ==> these[2] == arg.value && words[i..i + |these|][2] == words[i + 2];
  }

  /** Where the name in the text of a long option ends, and what its value is. */
  lemma NameEnds(name: string, arg: Given)
    requires '=' !in name
    ensures var current := name + JoinedText(arg, "=");
            && IndexOf(current, '=') == |name| && current[..|name|] == name
            && (|name| < |current| <==> arg.Joined?)
            && (arg.Joined? ==> current[|name| + 1..] == arg.value)
  {
    var current := name + JoinedText(arg, "=");
    if arg.Joined? {
      IndexBehind(name, '=', arg.value);
      assert current == name + (['='] + arg.value);
    } else {
      IndexBehind(name, '=', "");
      assert current == name;
    }
  }

  lemma LongOutcomeIs(sx: Syntax, words: seq<string>, i: nat, o: LongOpt)
    requires LongLegal(sx, o) && i + 1 + |o.Arg().Words()| <= |words|
    requires o.Arg().Next? ==> words[i + 1] == o.Arg().value
    ensures LongOutcome(sx, words, i, o.Text())
            == Outcome(LongReport(sx, o).0, LongReport(sx, o).1, i + 1 + |o.Arg().Words()|, "")
  {
    NameEnds(o.name, o.Arg());
    FindLongIs(o.name, sx.longOptions);
    if !o.Unnamed? {
      assert FindLong(o.name, sx.longOptions) == Found(o.index);
    }
  }

  lemma LongIsOption(sx: Syntax, words: seq<string>, i: nat, text: string)
    requires text != "" && i < |words| && words[i] == "--" + text
    ensures !IsNonOption(sx, words[i]) && words[i] != "--" && words[i] != "-"
    ensures WordStart(words[i]) == "-" + text
  {
    assert words[i][1..] == "-" + text;
  }

  /** Some words of an option, told of by these results. */
  ghost predicate ReadAt(sx: Syntax, words: seq<string>, i: nat, end: nat, report: Reported) {
    && i < end <= |words| && Results(sx, words, i, "") == report + Results(sx, words, end, "")
    && Partition(sx, words, i) == InFront(words[i..end], Partition(sx, words, end))
  }

  function InFront(option: seq<string>, p: Parts): Parts {
    p.(opts := option + p.opts)
  }

  /** What a scan makes of the words from i on. */
  ghost function Scan(sx: Syntax, words: seq<string>, i: nat): (Reported, Parts) {
    if i <= |words| then (Results(sx, words, i, ""), Partition(sx, words, i)) else ([], Parts([], [], []))
  }

  type Reader = nat -> (Reported, Parts)

  ghost function ScanReader(sx: Syntax, words: seq<string>): Reader {
    (i: nat) => Scan(sx, words, i)
  }

  /** A reader of command lines takes the words up to `end` for an option. */
  ghost predicate Reads(read: Reader, words: seq<string>, i: nat, end: nat, report: Reported) {
    && i < end <= |words| && read(i).0 == report + read(end).0
    && read(i).1 == InFront(words[i..end], read(end).1)
  }

  lemma ReadAtReads(sx: Syntax, words: seq<string>, i: nat, end: nat, report: Reported)
    requires ReadAt(sx, words, i, end, report)
    ensures Reads(ScanReader(sx, words), words, i, end, report)
  {
  }

  /** An option that takes up its words at once. */
  lemma OneOutcome(sx: Syntax, words: seq<string>, i: nat, place: string, o: Outcome)
    requires i < |words| && !IsNonOption(sx, words[i]) && words[i] != "--" && words[i] != "-"
    requires place == WordStart(words[i]) && place != ""
    requires OptionOutcome(sx, words, i, place, false) == o && o.place == "" && i < o.optind <= |words|
    ensures ReadAt(sx, words, i, o.optind, [(o.code, o.optarg)])
  {
    assert NextOutcome(sx, words, i, "") == Some(o);
    ResultsCons(sx, words, i, "", o);
  }

  /** An option word whose letters are read one by one. */
  lemma ManyOutcomes(sx: Syntax, words: seq<string>, i: nat, place: string, end: nat, report: Reported)
    requires i < |words| && !IsNonOption(sx, words[i]) && words[i] != "--" && words[i] != "-"
    requires place == WordStart(words[i]) && PlaceRead(sx, words, i, place, end, report)
    ensures ReadAt(sx, words, i, end, report)
  {
    var o := OptionOutcome(sx, words, i, place, false);
    assert NextOutcome(sx, words, i, place) == Some(o) == NextOutcome(sx, words, i, "");
    OutcomeAdvances(sx, words, i, place, false);
    ResultsCons(sx, words, i, "", o);
    ResultsCons(sx, words, i, place, o);
  }

  /** The rest of a word, told of by these results. */
  ghost predicate PlaceRead(sx: Syntax, words: seq<string>, i: nat, place: string, end: nat, report: Reported) {
    && i < end <= |words| && place != "" && place[0] != '-'
    && OptionEnd(sx, words, i, place, false) == end
    && Results(sx, words, i, place) == report + Results(sx, words, end, "")
  }

  lemma LastOutcome(sx: Syntax, words: seq<string>, i: nat, place: string, o: Outcome)
    requires i < |words| && place != "" && place[0] != '-'
    requires OptionOutcome(sx, words, i, place, false) == o && o.place == "" && i < o.optind <= |words|
    ensures PlaceRead(sx, words, i, place, o.optind, [(o.code, o.optarg)])
  {
    ResultsCons(sx, words, i, place, o);
  }

  lemma EarlierOutcome(sx: Syntax, words: seq<string>, i: nat, place: string, o: Outcome, end: nat, report: Reported)
    requires i < |words| && place != "" && place[0] != '-' && |o.place| < |place|
    requires OptionOutcome(sx, words, i, place, false) == o && o.optind == i && PlaceRead(sx, words, i, o.place, end, report)
    ensures PlaceRead(sx, words, i, place, end, [(o.code, o.optarg)] + report)
  {
    ResultsCons(sx, words, i, place, o);
    Reassociate([(o.code, o.optarg)], report, Results(sx, words, end, ""));
  }

  lemma Reassociate<T>(a: seq<T>, b: seq<T>, c: seq<T>)
    ensures a + (b + c) == a + b + c
  {
  }

  lemma LongRead(sx: Syntax, words: seq<string>, i: nat, o: LongOpt)
    requires LongLegal(sx, o) && Written(words, i, "--" + o.Text(), o.Arg())
    ensures Reads(ScanReader(sx, words), words, i, i + 1 + |o.Arg().Words()|, [LongReport(sx, o)])
  {
    var end, report := i + 1 + |o.Arg().Words()|, LongReport(sx, o);
    LongOutcomeIs(sx, words, i, o);
    LongIsOption(sx, words, i, o.Text());
    LongBehindDashes(sx, words, i, o.Text());
    OneOutcome(sx, words, i, "-" + o.Text(), Outcome(report.0, report.1, end, ""));
    ReadAtReads(sx, words, i, end, [report]);
  }

  lemma LongBehindDashes(sx: Syntax, words: seq<string>, i: nat, current: string)
    requires i < |words|
    ensures OptionOutcome(sx, words, i, "-" + current, false) == LongOutcome(sx, words, i, current)
  {
    assert ("-" + current)[1..] == current;
  }

  // ----- reading letters back

  lemma LetterTaken(sx: Syntax, words: seq<string>, i: nat, c: char, rest: string)
    requires i < |words| && (FlagLetter(sx, c) || ArgumentLetter(sx, c))
    ensures OptionOutcome(sx, words, i, [c] + rest, false)
         == LetterOutcome(sx, words, i, c, IndexOf(sx.options, c), rest)
  {
    var j := IndexOf(sx.options, c);
    assert ([c] + rest)[1..] == rest;
    assert j + 1 < |sx.options| ==> Behind(sx, c)[0] == sx.options[j + 1];
  }

  lemma FlagOutcome(sx: Syntax, words: seq<string>, i: nat, c: char, rest: string)
    requires i < |words| && (FlagLetter(sx, c) || UnknownLetter(sx, c))
    ensures OptionOutcome(sx, words, i, [c] + rest, false)
         == Outcome(LetterReport(sx, c).0, None, if rest == "" then i + 1 else i, rest)
  {
    if UnknownLetter(sx, c) {
      UnknownOutcome(sx, words, i, c, rest);
    } else {
      LetterTaken(sx, words, i, c, rest);
      var j := IndexOf(sx.options, c);
      assert j + 1 < |sx.options| ==> Behind(sx, c)[0] == sx.options[j + 1];
    }
  }

  lemma UnknownOutcome(sx: Syntax, words: seq<string>, i: nat, c: char, rest: string)
    requires i < |words| && UnknownLetter(sx, c)
    ensures OptionOutcome(sx, words, i, [c] + rest, false) == Outcome('?' as int, None, if rest == "" then i + 1 else i, rest)
  {
    assert ([c] + rest)[1..] == rest;
    ListedAt(sx.options, c);
  }

  lemma ArgumentTaken(sx: Syntax, words: seq<string>, i: nat, c: char, arg: Given)
    requires ArgumentLetter(sx, c) && ArgumentLegal(sx, c, arg) && i + 1 + |arg.Words()| <= |words|
    requires arg.Next? ==> words[i + 1] == arg.value
    ensures LetterOutcome(sx, words, i, c, IndexOf(sx.options, c), JoinedText(arg, ""))
         == Outcome(c as int, arg.Value(), i + 1 + |arg.Words()|, "")
  {
    var j := IndexOf(sx.options, c);
    assert Behind(sx, c)[0] == sx.options[j + 1];
    assert j + 2 < |sx.options| ==> Behind(sx, c)[1] == sx.options[j + 2];
    assert arg.Joined? ==> "" + arg.value == arg.value;
  }

  lemma ArgumentOutcome(sx: Syntax, words: seq<string>, i: nat, c: char, arg: Given)
    requires ArgumentLetter(sx, c) && ArgumentLegal(sx, c, arg) && i + 1 + |arg.Words()| <= |words|
    requires arg.Next? ==> words[i + 1] == arg.value
    ensures OptionOutcome(sx, words, i, [c] + JoinedText(arg, ""), false)
         == Outcome(c as int, arg.Value(), i + 1 + |arg.Words()|, "")
  {
    ArgumentTaken(sx, words, i, c, arg);
    LetterTaken(sx, words, i, c, JoinedText(arg, ""));
  }

  lemma ArgumentRead(sx: Syntax, words: seq<string>, i: nat, c: char, arg: Given)
    requires ArgumentLetter(sx, c) && ArgumentLegal(sx, c, arg) && i + 1 + |arg.Words()| <= |words|
    requires arg.Next? ==> words[i + 1] == arg.value
    ensures PlaceRead(sx, words, i, [c] + JoinedText(arg, ""), i + 1 + |arg.Words()|, [(c as int, arg.Value())])
  {
    ArgumentOutcome(sx, words, i, c, arg);
    assert ([c] + JoinedText(arg, ""))[0] == c != '-';
    LastOutcome(sx, words, i, [c] + JoinedText(arg, ""), Outcome(c as int, arg.Value(), i + 1 + |arg.Words()|, ""));
  }

  lemma LastFlagRead(sx: Syntax, words: seq<string>, i: nat, c: char)
    requires i < |words| && (FlagLetter(sx, c) || UnknownLetter(sx, c))
    ensures PlaceRead(sx, words, i, [c], i + 1, [LetterReport(sx, c)])
  {
    assert [c] + "" == [c];
    FlagOutcome(sx, words, i, c, "");
    LastOutcome(sx, words, i, [c], Outcome(LetterReport(sx, c).0, None, i + 1, ""));
  }

  lemma FlagRead(sx: Syntax, words: seq<string>, i: nat, c: char, rest: string, end: nat, report: Reported)
    requires (FlagLetter(sx, c) || UnknownLetter(sx, c)) && PlaceRead(sx, words, i, rest, end, report)
    ensures PlaceRead(sx, words, i, [c] + rest, end, [LetterReport(sx, c)] + report)
  {
    FlagOutcome(sx, words, i, c, rest);
    EarlierOutcome(sx, words, i, [c] + rest, Outcome(LetterReport(sx, c).0, None, i, rest), end, report);
  }

  /** The letters in front of the rest of a word. */
  lemma {:induction false} FlagsInFront(sx: Syntax, words: seq<string>, i: nat, flags: string, rest: string,
                                        end: nat, report: Reported)
    requires AllFlags(sx, flags) && PlaceRead(sx, words, i, rest, end, report)
    ensures PlaceRead(sx, words, i, flags + rest, end, LettersReport(sx, flags, None, Nothing) + report)
    decreases |flags|
  {
    if flags == "" {
      assert flags + rest == rest;
      assert [] + report == report;
    } else {
      var others := flags[1..];
      FlagsInFront(sx, words, i, others, rest, end, report);
      FlagRead(sx, words, i, flags[0], others + rest, end, LettersReport(sx, others, None, Nothing) + report);
      assert flags == [flags[0]] + others;
      Reassociate([flags[0]], others, rest);
      Reassociate([LetterReport(sx, flags[0])], LettersReport(sx, others, None, Nothing), report);
    }
  }

  lemma DashInFront(sx: Syntax, words: seq<string>, i: nat, text: string, end: nat, report: Reported)
    requires i < |words| && words[i] == "-" + text && PlaceRead(sx, words, i, text, end, report)
    ensures ReadAt(sx, words, i, end, report)
  {
    assert words[i][1..] == text && words[i][1] == text[0];
    ManyOutcomes(sx, words, i, text, end, report);
  }

  /** A word of letters, when what its last ones come to is known. */
  lemma WordRead(sx: Syntax, words: seq<string>, i: nat, flags: string, tail: string, end: nat, report: Reported)
    requires AllFlags(sx, flags) && PlaceRead(sx, words, i, tail, end, report) && words[i] == "-" + (flags + tail)
    ensures Reads(ScanReader(sx, words), words, i, end, LettersReport(sx, flags, None, Nothing) + report)
  {
    FlagsInFront(sx, words, i, flags, tail, end, report);
    DashInFront(sx, words, i, flags + tail, end, LettersReport(sx, flags, None, Nothing) + report);
    ReadAtReads(sx, words, i, end, LettersReport(sx, flags, None, Nothing) + report);
  }

  lemma FlagWordRead(sx: Syntax, words: seq<string>, i: nat, flags: string, c: char)
    requires AllFlags(sx, flags) && (FlagLetter(sx, c) || UnknownLetter(sx, c)) && i < |words| && words[i] == "-" + (flags + [c])
    ensures Reads(ScanReader(sx, words), words, i, i + 1, LettersReport(sx, flags, None, Nothing) + [LetterReport(sx, c)])
  {
    LastFlagRead(sx, words, i, c);
    WordRead(sx, words, i, flags, [c], i + 1, [LetterReport(sx, c)]);
  }

  lemma ArgumentWordRead(sx: Syntax, words: seq<string>, i: nat, flags: string, c: char, arg: Given)
    requires AllFlags(sx, flags) && ArgumentLetter(sx, c) && ArgumentLegal(sx, c, arg)
    requires Written(words, i, "-" + (flags + ([c] + JoinedText(arg, ""))), arg)
    ensures Reads(ScanReader(sx, words), words, i, i + 1 + |arg.Words()|,
                  LettersReport(sx, flags, None, Nothing) + [(c as int, arg.Value())])
  {
    ArgumentRead(sx, words, i, c, arg);
    WordRead(sx, words, i, flags, [c] + JoinedText(arg, ""), i + 1 + |arg.Words()|, [(c as int, arg.Value())]);
  }

  lemma LongTaken(sx: Syntax, words: seq<string>, i: nat, rest: string)
    requires TakesLong(sx) && i < |words|
    ensures rest != "" ==> OptionOutcome(sx, words, i, ['W'] + rest, false) == LongOutcome(sx, words, i, rest)
    ensures i + 1 < |words| ==> OptionOutcome(sx, words, i, ['W'], false) == LongOutcome(sx, words, i + 1, words[i + 1])
  {
    var j := IndexOf(sx.options, 'W');
    assert (['W'] + rest)[1..] == rest && ['W'][1..] == "";
    assert Behind(sx, 'W')[0] == sx.options[j + 1];
  }

  /** The W and what belongs to it. */
  lemma JoinedRead(sx: Syntax, words: seq<string>, i: nat, o: LongOpt)
    requires TakesLong(sx) && LongLegal(sx, o)
    requires i + 1 + |o.Arg().Words()| <= |words| && (o.Arg().Next? ==> words[i + 1] == o.Arg().value)
    ensures PlaceRead(sx, words, i, ['W'] + o.Text(), i + 1 + |o.Arg().Words()|, [LongReport(sx, o)])
  {
    LongOutcomeIs(sx, words, i, o);
    JoinedTaken(sx, words, i, o.Text(), LongReport(sx, o), i + 1 + |o.Arg().Words()|);
  }

  lemma JoinedTaken(sx: Syntax, words: seq<string>, i: nat, text: string, report: (int, Option<string>), end: nat)
    requires TakesLong(sx) && text != "" && i < end <= |words|
    requires LongOutcome(sx, words, i, text) == Outcome(report.0, report.1, end, "")
    ensures PlaceRead(sx, words, i, ['W'] + text, end, [report])
  {
    var place := ['W'] + text;
    assert place[0] == 'W';
    LongTaken(sx, words, i, text);
    LastOutcome(sx, words, i, place, Outcome(report.0, report.1, end, ""));
  }

  lemma SeparateRead(sx: Syntax, words: seq<string>, i: nat, o: LongOpt)
    requires TakesLong(sx) && LongLegal(sx, o) && Written(words, i + 1, o.Text(), o.Arg())
    ensures PlaceRead(sx, words, i, ['W'], i + 2 + |o.Arg().Words()|, [LongReport(sx, o)])
  {
    var report := LongReport(sx, o);
    LongTaken(sx, words, i, "");
    LongOutcomeIs(sx, words, i + 1, o);
    LastOutcome(sx, words, i, ['W'], Outcome(report.0, report.1, i + 2 + |o.Arg().Words()|, ""));
  }

  lemma JoinedWordRead(sx: Syntax, words: seq<string>, i: nat, flags: string, o: LongOpt)
    requires TakesLong(sx) && AllFlags(sx, flags) && LongLegal(sx, o)
    requires Written(words, i, "-" + (flags + (['W'] + o.Text())), o.Arg())
    ensures Reads(ScanReader(sx, words), words, i, i + 1 + |o.Arg().Words()|,
                  LettersReport(sx, flags, None, Nothing) + [LongReport(sx, o)])
  {
    var tail, end, report := ['W'] + o.Text(), i + 1 + |o.Arg().Words()|, [LongReport(sx, o)];
    assert PlaceRead(sx, words, i, tail, end, report) by {
      JoinedRead(sx, words, i, o);
    }
    WordRead(sx, words, i, flags, tail, end, report);
  }

  lemma SeparateWordRead(sx: Syntax, words: seq<string>, i: nat, flags: string, o: LongOpt)
    requires TakesLong(sx) && AllFlags(sx, flags) && LongLegal(sx, o)
    requires Written(words, i + 1, o.Text(), o.Arg()) && words[i] == "-" + (flags + ['W'])
    ensures Reads(ScanReader(sx, words), words, i, i + 2 + |o.Arg().Words()|,
                  LettersReport(sx, flags, None, Nothing) + [LongReport(sx, o)])
  {
    var end, report := i + 2 + |o.Arg().Words()|, [LongReport(sx, o)];
    assert PlaceRead(sx, words, i, ['W'], end, report) by {
      SeparateRead(sx, words, i, o);
    }
    WordRead(sx, words, i, flags, ['W'], end, report);
  }

  lemma DashOutcome(sx: Syntax, words: seq<string>, i: nat, arg: Given)
    requires DashLegal(sx, arg) && i + 1 + |arg.Words()| <= |words| && (arg.Next? ==> words[i + 1] == arg.value)
    ensures '-' in sx.options
    ensures OptionOutcome(sx, words, i, "-", true) == Outcome('-' as int, arg.Value(), i + 1 + |arg.Words()|, "")
  {
    var j := IndexOf(sx.options, '-');
    assert "-"[1..] == "";
    assert sx.options[j] == '-';
    assert j + 1 < |sx.options| ==> Behind(sx, '-')[0] == sx.options[j + 1];
    assert j + 2 < |sx.options| ==> Behind(sx, '-')[1] == sx.options[j + 2];
  }

  lemma DashRead(sx: Syntax, words: seq<string>, i: nat, arg: Given)
    requires DashLegal(sx, arg) && Written(words, i, "-", arg)
    ensures Reads(ScanReader(sx, words), words, i, i + 1 + |arg.Words()|, [('-' as int, arg.Value())])
  {
    DashOutcome(sx, words, i, arg);
    var o := OptionOutcome(sx, words, i, "-", true);
    assert NextOutcome(sx, words, i, "") == Some(o);
    ResultsCons(sx, words, i, "", o);
    ReadAtReads(sx, words, i, i + 1 + |arg.Words()|, [('-' as int, arg.Value())]);
  }

  // ----- options that lack their argument

  /** An option word, the last, that lacks its argument. */
  ghost predicate Lacks(sx: Syntax, words: seq<string>, i: nat, report: Reported) {
    i < |words| && Results(sx, words, i, "") == report && Partition(sx, words, i) == Parts(words[i..], [], [])
  }

  /** There is nothing behind the last option. */
  lemma LastRead(sx: Syntax, words: seq<string>, i: nat, report: Reported)
    requires ReadAt(sx, words, i, |words|, report)
    ensures Lacks(sx, words, i, report)
  {
    assert Results(sx, words, |words|, "") == [] && Partition(sx, words, |words|) == Parts([], [], []);
    assert report + [] == report && words[i..|words|] + [] == words[i..];
  }

  lemma LongLacksOutcome(sx: Syntax, words: seq<string>, i: nat, index: nat, name: string)
    requires LongLacks(sx, index, name) && i + 1 == |words|
    ensures LongOutcome(sx, words, i, name) == Outcome(Complaint(sx).0, None, i + 1, "")
  {
    NameEnds(name, Nothing);
    FindLongIs(name, sx.longOptions);
    assert name + "" == name;
    assert FindLong(name, sx.longOptions) == Found(index);
  }

  lemma LongLacksRead(sx: Syntax, words: seq<string>, i: nat, index: nat, name: string)
    requires LongLacks(sx, index, name) && i + 1 == |words| && words[i] == "--" + name
    ensures Lacks(sx, words, i, [Complaint(sx)])
  {
    LongLacksOutcome(sx, words, i, index, name);
    LongIsOption(sx, words, i, name);
    LongBehindDashes(sx, words, i, name);
    OneOutcome(sx, words, i, "-" + name, Outcome(Complaint(sx).0, None, i + 1, ""));
    LastRead(sx, words, i, [Complaint(sx)]);
  }

  /** The letters in front of the one that lacks something. */
  lemma TailLacks(sx: Syntax, words: seq<string>, i: nat, flags: string, tail: string)
    requires AllFlags(sx, flags) && PlaceRead(sx, words, i, tail, |words|, [Complaint(sx)])
    requires words[i] == "-" + (flags + tail)
    ensures Lacks(sx, words, i, LettersReport(sx, flags, None, Nothing) + [Complaint(sx)])
  {
    var report := LettersReport(sx, flags, None, Nothing) + [Complaint(sx)];
    FlagsInFront(sx, words, i, flags, tail, |words|, [Complaint(sx)]);
    DashInFront(sx, words, i, flags + tail, |words|, report);
    LastRead(sx, words, i, report);
  }

  lemma LetterLacksRead(sx: Syntax, words: seq<string>, i: nat, flags: string, c: char)
    requires AllFlags(sx, flags) && ArgumentLetter(sx, c) && !MayLack(sx, c)
    requires i + 1 == |words| && words[i] == "-" + (flags + [c])
    ensures Lacks(sx, words, i, LettersReport(sx, flags, None, Nothing) + [Complaint(sx)])
  {
    LetterLacksOutcome(sx, words, i, c);
    LastOutcome(sx, words, i, [c], Outcome(Complaint(sx).0, None, i + 1, ""));
    TailLacks(sx, words, i, flags, [c]);
  }

  lemma LetterLacksOutcome(sx: Syntax, words: seq<string>, i: nat, c: char)
    requires ArgumentLetter(sx, c) && !MayLack(sx, c) && i + 1 == |words|
    ensures OptionOutcome(sx, words, i, [c], false) == Outcome(Complaint(sx).0, None, i + 1, "")
  {
    var j := IndexOf(sx.options, c);
    LetterTaken(sx, words, i, c, "");
    assert [c] + "" == [c];
    assert Behind(sx, c)[0] == sx.options[j + 1];
    assert j + 2 < |sx.options| ==> Behind(sx, c)[1] == sx.options[j + 2];
  }

  lemma NameLacksOutcome(sx: Syntax, words: seq<string>, i: nat)
    requires TakesLong(sx) && i + 1 == |words|
    ensures OptionOutcome(sx, words, i, ['W'], false) == Outcome(Complaint(sx).0, None, i + 1, "")
  {
    var j := IndexOf(sx.options, 'W');
    assert ['W'][1..] == "";
    assert Behind(sx, 'W')[0] == sx.options[j + 1];
  }

  lemma NameLacksRead(sx: Syntax, words: seq<string>, i: nat, flags: string)
    requires TakesLong(sx) && AllFlags(sx, flags) && i + 1 == |words| && words[i] == "-" + (flags + ['W'])
    ensures Lacks(sx, words, i, LettersReport(sx, flags, None, Nothing) + [Complaint(sx)])
  {
    NameLacksOutcome(sx, words, i);
    LastOutcome(sx, words, i, ['W'], Outcome(Complaint(sx).0, None, i + 1, ""));
    TailLacks(sx, words, i, flags, ['W']);
  }

  lemma JoinedLacksRead(sx: Syntax, words: seq<string>, i: nat, flags: string, index: nat, name: string)
    requires TakesLong(sx) && AllFlags(sx, flags) && LongLacks(sx, index, name)
    requires i + 1 == |words| && words[i] == "-" + (flags + (['W'] + name))
    ensures Lacks(sx, words, i, LettersReport(sx, flags, None, Nothing) + [Complaint(sx)])
  {
    LongTaken(sx, words, i, name);
    LongLacksOutcome(sx, words, i, index, name);
    LastOutcome(sx, words, i, ['W'] + name, Outcome(Complaint(sx).0, None, i + 1, ""));
    TailLacks(sx, words, i, flags, ['W'] + name);
  }

  lemma SeparateLacksRead(sx: Syntax, words: seq<string>, i: nat, flags: string, index: nat, name: string)
    requires TakesLong(sx) && AllFlags(sx, flags) && LongLacks(sx, index, name)
    requires i + 2 == |words| && words[i] == "-" + (flags + ['W']) && words[i + 1] == name
    ensures Lacks(sx, words, i, LettersReport(sx, flags, None, Nothing) + [Complaint(sx)])
  {
    LongTaken(sx, words, i, "");
    LongLacksOutcome(sx, words, i + 1, index, name);
    LastOutcome(sx, words, i, ['W'], Outcome(Complaint(sx).0, None, i + 2, ""));
    TailLacks(sx, words, i, flags, ['W']);
  }

  lemma DashLacksOutcome(sx: Syntax, words: seq<string>, i: nat)
    requires Listed(sx, '-') && DashLacks(Behind(sx, '-')) && i + 1 == |words|
    ensures OptionOutcome(sx, words, i, "-", true) == Outcome(Complaint(sx).0, None, i + 1, "")
  {
    var j := IndexOf(sx.options, '-');
    assert "-"[1..] == "";
    assert Behind(sx, '-')[0] == sx.options[j + 1];
    assert j + 2 < |sx.options| ==> Behind(sx, '-')[1] == sx.options[j + 2];
  }

  lemma DashLacksRead(sx: Syntax, words: seq<string>, i: nat)
    requires Listed(sx, '-') && DashLacks(Behind(sx, '-')) && i + 1 == |words| && words[i] == "-"
    ensures Lacks(sx, words, i, [Complaint(sx)])
  {
    DashLacksOutcome(sx, words, i);
    var o := OptionOutcome(sx, words, i, "-", true);
    assert NextOutcome(sx, words, i, "") == Some(o);
    ResultsCons(sx, words, i, "", o);
    LastRead(sx, words, i, [Complaint(sx)]);
  }

  // ----- reading whole command lines back

  lemma ResultsAlike(sx: Syntax, words: seq<string>, i: nat)
    requires i < |words| && IsNonOption(sx, words[i])
    ensures Results(sx, words, i, "") == Results(sx, words, i + 1, "")
  {
    match NextOutcome(sx, words, i, "")
    case None =>
    case Some(o) =>
      NextAdvances(sx, words, i, "");
      ResultsCons(sx, words, i, "", o);
      NextAdvances(sx, words, i + 1, "");
      ResultsCons(sx, words, i + 1, "", o);
  }

  // What a reader makes of every kind of item.

  ghost predicate ReadsLong(sx: Syntax, words: seq<string>, read: Reader) {
    forall i: nat, o: LongOpt ::
      LongLegal(sx, o) && Written(words, i, "--" + o.Text(), o.Arg()) ==>
        Reads(read, words, i, i + 1 + |o.Arg().Words()|, [LongReport(sx, o)])
  }

  ghost predicate ReadsFlags(sx: Syntax, words: seq<string>, read: Reader) {
    forall i: nat, flags: string, c: char ::
      AllFlags(sx, flags) && (FlagLetter(sx, c) || UnknownLetter(sx, c)) && i < |words| && words[i] == "-" + (flags + [c]) ==>
        Reads(read, words, i, i + 1, LettersReport(sx, flags, None, Nothing) + [LetterReport(sx, c)])
  }

  ghost predicate ReadsArguments(sx: Syntax, words: seq<string>, read: Reader) {
    forall i: nat, flags: string, c: char, arg: Given ::
      && AllFlags(sx, flags) && ArgumentLetter(sx, c) && ArgumentLegal(sx, c, arg)
      && Written(words, i, "-" + (flags + ([c] + JoinedText(arg, ""))), arg) ==>
        Reads(read, words, i, i + 1 + |arg.Words()|, LettersReport(sx, flags, None, Nothing) + [(c as int, arg.Value())])
  }

  ghost predicate ReadsJoined(sx: Syntax, words: seq<string>, read: Reader) {
    forall i: nat, flags: string, o: LongOpt ::
      && TakesLong(sx) && AllFlags(sx, flags) && LongLegal(sx, o)
      && Written(words, i, "-" + (flags + (['W'] + o.Text())), o.Arg()) ==>
        Reads(read, words, i, i + 1 + |o.Arg().Words()|, LettersReport(sx, flags, None, Nothing) + [LongReport(sx, o)])
  }

  ghost predicate ReadsSeparate(sx: Syntax, words: seq<string>, read: Reader) {
    forall i: nat, flags: string, o: LongOpt ::
      && TakesLong(sx) && AllFlags(sx, flags) && LongLegal(sx, o)
      && Written(words, i + 1, o.Text(), o.Arg()) && words[i] == "-" + (flags + ['W']) ==>
        Reads(read, words, i, i + 2 + |o.Arg().Words()|, LettersReport(sx, flags, None, Nothing) + [LongReport(sx, o)])
  }

  ghost predicate ReadsDash(sx: Syntax, words: seq<string>, read: Reader) {
    forall i: nat, arg: Given :: DashLegal(sx, arg) && Written(words, i, "-", arg) ==>
      Reads(read, words, i, i + 1 + |arg.Words()|, [('-' as int, arg.Value())])
  }

  ghost predicate SkipsOperands(sx: Syntax, words: seq<string>, read: Reader) {
    forall i: nat :: i < |words| && IsNonOption(sx, words[i]) ==>
      read(i).0 == read(i + 1).0 && read(i).1 == read(i + 1).1.(nons := [words[i]] + read(i + 1).1.nons)
  }

  ghost predicate Ends(sx: Syntax, words: seq<string>, read: Reader, end: Ending) {
    forall i: nat :: i <= |words| && words[i..] == end.Words() ==>
      read(i) == (end.Report(sx), Parts(end.OptionWords(), [], end.Rest()))
  }

  ghost predicate DealsWith(sx: Syntax, words: seq<string>, read: Reader, end: Ending) {
    && ReadsLong(sx, words, read) && ReadsFlags(sx, words, read) && ReadsArguments(sx, words, read)
    && ReadsJoined(sx, words, read) && ReadsSeparate(sx, words, read)
    && ReadsDash(sx, words, read) && SkipsOperands(sx, words, read) && Ends(sx, words, read, end)
  }

  lemma ScanReadsLong(sx: Syntax, words: seq<string>)
    ensures ReadsLong(sx, words, ScanReader(sx, words))
  {
    forall i: nat, o: LongOpt | LongLegal(sx, o) && Written(words, i, "--" + o.Text(), o.Arg())
      ensures Reads(ScanReader(sx, words), words, i, i + 1 + |o.Arg().Words()|, [LongReport(sx, o)]) {
      LongRead(sx, words, i, o);
    }
  }

  lemma ScanReadsFlags(sx: Syntax, words: seq<string>)
    ensures ReadsFlags(sx, words, ScanReader(sx, words))
  {
    forall i: nat, flags: string, c: char
      | AllFlags(sx, flags) && (FlagLetter(sx, c) || UnknownLetter(sx, c)) && i < |words| && words[i] == "-" + (flags + [c])
      ensures Reads(ScanReader(sx, words), words, i, i + 1, LettersReport(sx, flags, None, Nothing) + [LetterReport(sx, c)]) {
      FlagWordRead(sx, words, i, flags, c);
    }
  }

  lemma ScanReadsArguments(sx: Syntax, words: seq<string>)
    ensures ReadsArguments(sx, words, ScanReader(sx, words))
  {
    forall i: nat, flags: string, c: char, arg: Given
      | && AllFlags(sx, flags) && ArgumentLetter(sx, c) && ArgumentLegal(sx, c, arg)
        && Written(words, i, "-" + (flags + ([c] + JoinedText(arg, ""))), arg)
      ensures Reads(ScanReader(sx, words), words, i, i + 1 + |arg.Words()|,
                    LettersReport(sx, flags, None, Nothing) + [(c as int, arg.Value())]) {
      ArgumentWordRead(sx, words, i, flags, c, arg);
    }
  }

  lemma ScanReadsJoined(sx: Syntax, words: seq<string>)
    ensures ReadsJoined(sx, words, ScanReader(sx, words))
  {
    forall i: nat, flags: string, o: LongOpt
      | && TakesLong(sx) && AllFlags(sx, flags) && LongLegal(sx, o)
        && Written(words, i, "-" + (flags + (['W'] + o.Text())), o.Arg())
      ensures Reads(ScanReader(sx, words), words, i, i + 1 + |o.Arg().Words()|,
                    LettersReport(sx, flags, None, Nothing) + [LongReport(sx, o)]) {
      JoinedWordRead(sx, words, i, flags, o);
    }
  }

  lemma ScanReadsSeparate(sx: Syntax, words: seq<string>)
    ensures ReadsSeparate(sx, words, ScanReader(sx, words))
  {
    forall i: nat, flags: string, o: LongOpt
      | && TakesLong(sx) && AllFlags(sx, flags) && LongLegal(sx, o)
        && Written(words, i + 1, o.Text(), o.Arg()) && words[i] == "-" + (flags + ['W'])
      ensures Reads(ScanReader(sx, words), words, i, i + 2 + |o.Arg().Words()|,
                    LettersReport(sx, flags, None, Nothing) + [LongReport(sx, o)]) {
      SeparateWordRead(sx, words, i, flags, o);
    }
  }

  lemma ScanReadsDash(sx: Syntax, words: seq<string>)
    ensures ReadsDash(sx, words, ScanReader(sx, words))
  {
    forall i: nat, arg: Given | DashLegal(sx, arg) && Written(words, i, "-", arg)
      ensures Reads(ScanReader(sx, words), words, i, i + 1 + |arg.Words()|, [('-' as int, arg.Value())]) {
      DashRead(sx, words, i, arg);
    }
  }

  lemma ScanSkipsOperands(sx: Syntax, words: seq<string>)
    ensures SkipsOperands(sx, words, ScanReader(sx, words))
  {
    forall i: nat | i < |words| && IsNonOption(sx, words[i])
      ensures Scan(sx, words, i).0 == Scan(sx, words, i + 1).0
      ensures Scan(sx, words, i).1 == Scan(sx, words, i + 1).1.(nons := [words[i]] + Scan(sx, words, i + 1).1.nons) {
      ResultsAlike(sx, words, i);
    }
  }

  lemma ScanEnds(sx: Syntax, words: seq<string>, end: Ending)
    requires end.Legal(sx)
    ensures Ends(sx, words, ScanReader(sx, words), end)
  {
    forall i: nat | i <= |words| && words[i..] == end.Words()
      ensures Scan(sx, words, i) == (end.Report(sx), Parts(end.OptionWords(), [], end.Rest())) {
      EndRead(sx, words, i, end);
    }
  }

  function WithItem(item: Item, p: Parts): Parts {
    if item.Operand? then p.(nons := [item.word] + p.nons) else InFront(ItemWords(item), p)
  }

  lemma {:induction false} ReportSplit(sx: Syntax, flags: string, last: Option<char>, arg: Given)
    ensures LettersReport(sx, flags, last, arg) == LettersReport(sx, flags, None, Nothing) + LettersReport(sx, "", last, arg)
  {
    if flags == "" {
      assert [] + LettersReport(sx, "", last, arg) == LettersReport(sx, "", last, arg);
    } else {
      ReportSplit(sx, flags[1..], last, arg);
      Reassociate([LetterReport(sx, flags[0])], LettersReport(sx, flags[1..], None, Nothing), LettersReport(sx, "", last, arg));
    }
  }

  lemma {:induction false} ReportOfFlags(sx: Syntax, flags: string, c: char)
    ensures LettersReport(sx, flags + [c], None, Nothing) == LettersReport(sx, flags, None, Nothing) + [LetterReport(sx, c)]
  {
    if flags == "" {
      assert [c][1..] == "" && flags + [c] == [c];
      assert LettersReport(sx, [c], None, Nothing) == [LetterReport(sx, c)];
    } else {
      assert (flags + [c])[1..] == flags[1..] + [c];
      ReportOfFlags(sx, flags[1..], c);
      Reassociate([LetterReport(sx, flags[0])], LettersReport(sx, flags[1..], None, Nothing), [LetterReport(sx, c)]);
    }
  }

  lemma LastOfFlags(flags: string)
    requires flags != ""
    ensures flags == flags[..|flags| - 1] + [flags[|flags| - 1]]
  {
  }

  // Such a reader takes every item by itself.

  lemma LongItem(sx: Syntax, words: seq<string>, read: Reader, i: nat, item: Item)
    requires ReadsLong(sx, words, read) && item.Long? && Legal(sx, item) && StandsAt(words, i, ItemWords(item))
    ensures Reads(read, words, i, i + |ItemWords(item)|, ItemReport(sx, item))
  {
    StandsWritten(words, i, "--" + item.opt.Text(), item.opt.Arg());
  }

  lemma LettersItem(sx: Syntax, words: seq<string>, read: Reader, i: nat, item: Item)
    requires ReadsFlags(sx, words, read) && ReadsArguments(sx, words, read)
    requires item.Letters? && Legal(sx, item) && StandsAt(words, i, ItemWords(item))
    ensures Reads(read, words, i, i + |ItemWords(item)|, ItemReport(sx, item))
  {
    var flags, arg := item.flags, item.arg;
    StandsWritten(words, i, "-" + LettersText(flags, item.last, arg), arg);
    ReportSplit(sx, flags, item.last, arg);
    match item.last
    case None =>
      var front, c := flags[..|flags| - 1], flags[|flags| - 1];
      LastOfFlags(flags);
      ReportOfFlags(sx, front, c);
      assert flags + "" == flags;
      assert AllFlags(sx, front) && (FlagLetter(sx, c) || UnknownLetter(sx, c)) && words[i] == "-" + (front + [c]);
    case Some(c) =>
      assert Written(words, i, "-" + (flags + ([c] + JoinedText(arg, ""))), arg);
  }

  lemma BehindWItem(sx: Syntax, words: seq<string>, read: Reader, i: nat, item: Item)
    requires ReadsJoined(sx, words, read) && ReadsSeparate(sx, words, read)
    requires item.BehindW? && Legal(sx, item) && StandsAt(words, i, ItemWords(item))
    ensures Reads(read, words, i, i + |ItemWords(item)|, ItemReport(sx, item))
  {
    var text := item.opt.Text();
    if item.joined {
      StandsWritten(words, i, "-" + (item.flags + (['W'] + text)), item.opt.Arg());
    } else {
      StandsTwo(words, i, "-" + (item.flags + ['W']), text, item.opt.Arg());
    }
  }

  lemma DashItem(sx: Syntax, words: seq<string>, read: Reader, i: nat, item: Item)
    requires ReadsDash(sx, words, read) && item.Dash? && Legal(sx, item) && StandsAt(words, i, ItemWords(item))
    ensures Reads(read, words, i, i + |ItemWords(item)|, ItemReport(sx, item))
  {
    StandsWritten(words, i, "-", item.arg);
  }

  lemma ItemRead(sx: Syntax, words: seq<string>, read: Reader, end: Ending, i: nat, item: Item)
    requires DealsWith(sx, words, read, end) && Legal(sx, item) && StandsAt(words, i, ItemWords(item))
    ensures Dealt(read(i), read(i + |ItemWords(item)|), item, ItemReport(sx, item))
  {
    match item {
      case Operand(word) =>
        assert words[i..i + 1][0] == words[i];
        assert [] + read(i + 1).0 == read(i + 1).0;
      case Long(_) => LongItem(sx, words, read, i, item);
      case Letters(_, _, _) => LettersItem(sx, words, read, i, item);
      case BehindW(_, _, _) => BehindWItem(sx, words, read, i, item);
      case Dash(_) => DashItem(sx, words, read, i, item);
    }
    assert !item.Operand? ==> words[i..i + |ItemWords(item)|] == ItemWords(item);
  }

  /** What follows an item. */
  lemma StandsBehind(words: seq<string>, i: nat, first: seq<string>, others: seq<string>)
    requires i <= |words| && words[i..] == first + others
    ensures StandsAt(words, i, first) && words[i + |first|..] == others
  {
    assert words[i..][..|first|] == first && words[i..][|first|..] == others;
  }

  /** The words from i on, when they are just these. */
  lemma WordsAre(words: seq<string>, i: nat, these: seq<string>)
    requires i <= |words| && words[i..] == these
    ensures |words| == i + |these| && forall k :: 0 <= k < |these| ==> words[i + k] == these[k]
  {
    assert forall k :: 0 <= k < |these| ==> words[i..][k] == words[i + k];
  }

  lemma PlainEndRead(sx: Syntax, words: seq<string>, i: nat, end: Ending)
    requires i <= |words| && end.Ending? && end.Legal(sx) && words[i..] == end.OptionWords() + end.rest
    ensures Scan(sx, words, i) == ([], Parts(end.OptionWords(), [], end.rest))
  {
    if end.dashes {
      assert words[i..][0] == words[i] == "--";
      assert words[i..][1..] == words[i + 1..] == end.rest;
    }
  }

  lemma EndRead(sx: Syntax, words: seq<string>, i: nat, end: Ending)
    requires i <= |words| && end.Legal(sx) && words[i..] == end.Words()
    ensures Scan(sx, words, i) == (end.Report(sx), Parts(end.OptionWords(), [], end.Rest()))
  {
    if end.Ending? {
      PlainEndRead(sx, words, i, end);
    } else {
      assert end.OptionWords() + [] == end.OptionWords();
      WordsAre(words, i, end.OptionWords());
      LackRead(sx, words, i, end);
    }
  }

  lemma LackRead(sx: Syntax, words: seq<string>, i: nat, end: Ending)
    requires !end.Ending? && end.Legal(sx) && |words| == i + |end.OptionWords()|
    requires forall k :: 0 <= k < |end.OptionWords()| ==> words[i + k] == end.OptionWords()[k]
    ensures Lacks(sx, words, i, end.Report(sx))
  {
    assert words[i + 0] == end.OptionWords()[0];
    match end
    case LacksLong(index, name) => LongLacksRead(sx, words, i, index, name);
    case LacksLetter(flags, c) => LetterLacksRead(sx, words, i, flags, c);
    case LacksName(flags) => NameLacksRead(sx, words, i, flags);
    case LacksBehindW(flags, joined, index, name) =>
      if joined {
        JoinedLacksRead(sx, words, i, flags, index, name);
      } else {
        assert words[i + 1] == end.OptionWords()[1];
        SeparateLacksRead(sx, words, i, flags, index, name);
      }
    case LacksDash => DashLacksRead(sx, words, i);
  }

  /** How a scan sorts these. */
  function Sorting(items: seq<Item>, end: Ending): Parts {
    Parts(OptionWords(items) + end.OptionWords(), Operands(items), end.Rest())
  }

  lemma SortingCons(items: seq<Item>, end: Ending)
    requires items != []
    ensures Sorting(items, end) == WithItem(items[0], Sorting(items[1..], end))
  {
    if items[0].Operand? {
      assert [] + OptionWords(items[1..]) == OptionWords(items[1..]);
    } else {
      Reassociate(ItemWords(items[0]), OptionWords(items[1..]), end.OptionWords());
      assert [] + Operands(items[1..]) == Operands(items[1..]);
    }
  }

  lemma StandsInFront(words: seq<string>, i: nat, first: seq<string>, others: seq<string>, last: seq<string>)
    requires i <= |words| && words[i..] == first + others + last
    ensures StandsAt(words, i, first) && words[i + |first|..] == others + last
  {
    Reassociate(first, others, last);
    StandsBehind(words, i, first, others + last);
  }

  /** What is made of an item and what follows it. */
  ghost predicate Dealt(now: (Reported, Parts), next: (Reported, Parts), item: Item, report: Reported) {
    now.0 == report + next.0 && now.1 == WithItem(item, next.1)
  }

  ghost predicate DealsWithItems(sx: Syntax, words: seq<string>, read: Reader) {
    forall i: nat, item: Item :: StandsAt(words, i, ItemWords(item)) && Legal(sx, item) ==>
      Dealt(read(i), read(i + |ItemWords(item)|), item, ItemReport(sx, item))
  }

  lemma AllItemsRead(sx: Syntax, words: seq<string>, read: Reader, end: Ending)
    requires DealsWith(sx, words, read, end)
    ensures DealsWithItems(sx, words, read)
  {
    forall i: nat, item: Item | StandsAt(words, i, ItemWords(item)) && Legal(sx, item)
      ensures Dealt(read(i), read(i + |ItemWords(item)|), item, ItemReport(sx, item)) {
      ItemRead(sx, words, read, end, i, item);
    }
  }

  /** Such a reader takes whole lines apart. */
  lemma {:induction false} LineDealt(sx: Syntax, words: seq<string>, i: nat, items: seq<Item>, end: Ending, read: Reader)
    requires DealsWithItems(sx, words, read) && Ends(sx, words, read, end) && AllLegal(sx, items)
    requires i <= |words| && words[i..] == AllWords(items) + end.Words()
    ensures read(i) == (AllReports(sx, items) + end.Report(sx), Sorting(items, end))
    decreases |items|
  {
    if items == [] {
      assert AllWords(items) + end.Words() == end.Words();
      assert [] + end.Report(sx) == end.Report(sx);
      assert OptionWords(items) + end.OptionWords() == end.OptionWords();
    } else {
      var first := ItemWords(items[0]);
      StandsInFront(words, i, first, AllWords(items[1..]), end.Words());
      LineDealt(sx, words, i + |first|, items[1..], end, read);
      assert Dealt(read(i), read(i + |first|), items[0], ItemReport(sx, items[0]));
      FirstDealt(sx, items, end, read(i), read(i + |first|));
    }
  }

  lemma FirstDealt(sx: Syntax, items: seq<Item>, end: Ending, now: (Reported, Parts), next: (Reported, Parts))
    requires items != [] && AllLegal(sx, items) && Dealt(now, next, items[0], ItemReport(sx, items[0]))
    requires next == (AllReports(sx, items[1..]) + end.Report(sx), Sorting(items[1..], end))
    ensures now == (AllReports(sx, items) + end.Report(sx), Sorting(items, end))
  {
    Reassociate(ItemReport(sx, items[0]), AllReports(sx, items[1..]), end.Report(sx));
    SortingCons(items, end);
  }

  lemma ScanDeals(sx: Syntax, words: seq<string>, end: Ending)
    requires end.Legal(sx)
    ensures DealsWith(sx, words, ScanReader(sx, words), end)
  {
    ScanReadsLong(sx, words);
    ScanReadsFlags(sx, words);
    ScanReadsArguments(sx, words);
    ScanReadsJoined(sx, words);
    ScanReadsSeparate(sx, words);
    ScanReadsDash(sx, words);
    ScanSkipsOperands(sx, words);
    ScanEnds(sx, words, end);
  }

  /** A command line made of options, each spelled in any legal way, and of operands in
      any place among them, is taken apart into just those. */
  lemma LineRead(sx: Syntax, words: seq<string>, i: nat, items: seq<Item>, end: Ending)
    requires sx.Valid() && AllLegal(sx, items) && end.Legal(sx)
    requires i <= |words| && words[i..] == AllWords(items) + end.Words()
    ensures Results(sx, words, i, "") == AllReports(sx, items) + end.Report(sx) && Partition(sx, words, i) == Sorting(items, end)
  {
    ScanDeals(sx, words, end);
    AllItemsRead(sx, words, ScanReader(sx, words), end);
    LineDealt(sx, words, i, items, end, ScanReader(sx, words));
  }

  // ----- single mistakes, anywhere in a scan

  function ValueText(value: Option<string>): string {
    if value.Some? then "=" + value.value else ""
  }

  /** A long option whose name begins that of no entry, or those of two, is reported as '?',
      and the scan goes on behind its word. */
  lemma UnknownLong(sx: Syntax, words: seq<string>, i: nat, name: string, value: Option<string>)
    requires i < |words| && words[i] == "--" + (name + ValueText(value)) && words[i] != "--" && '=' !in name
    requires StandsForNone(name, sx.longOptions)
    ensures Results(sx, words, i, "") == [('?' as int, None)] + Results(sx, words, i + 1, "")
  {
    var o := Unnamed(name, value);
    UnnamedText(o);
    LongReadAlone(sx, words, i, o);
  }

  /** So is, with a ':' if the option string begins with one, a value that is not wanted. */
  lemma ValueRefused(sx: Syntax, words: seq<string>, i: nat, index: nat, name: string, value: string)
    requires i < |words| && words[i] == "--" + (name + ("=" + value)) && '=' !in name
    requires StandsFor(name, sx.longOptions, index) && sx.longOptions[index].hasArg.NoArgument?
    ensures Results(sx, words, i, "")
         == [(if ":" <= sx.options then ':' as int else '?' as int, None)] + Results(sx, words, i + 1, "")
  {
    var o := Surplus(index, name, value);
    SurplusText(o);
    ColonFirst(sx.options);
    LongReadAlone(sx, words, i, o);
  }

  lemma UnnamedText(o: LongOpt)
    requires o.Unnamed?
    ensures o.Text() == o.name + ValueText(o.value) && !o.Arg().Next?
  {
  }

  lemma SurplusText(o: LongOpt)
    requires o.Surplus?
    ensures o.Text() == o.name + ("=" + o.text) && o.Text() != "" && !o.Arg().Next?
  {
  }

  /** A long option whose word is all there is to it. */
  lemma LongReadAlone(sx: Syntax, words: seq<string>, i: nat, o: LongOpt)
    requires LongLegal(sx, o) && !o.Arg().Next? && i < |words| && words[i] == "--" + o.Text()
    ensures Results(sx, words, i, "") == [LongReport(sx, o)] + Results(sx, words, i + 1, "")
  {
    LongRead(sx, words, i, o);
  }

  lemma ColonFirst(s: string)
    ensures ":" <= s <==> s != "" && s[0] == ':'
  {
  }

  /** And a last word that is an option without the argument it requires. */
  lemma ArgumentMissing(sx: Syntax, words: seq<string>, i: nat, index: nat, name: string)
    requires i + 1 == |words| && words[i] == "--" + name && name != "" && '=' !in name
    requires StandsFor(name, sx.longOptions, index) && sx.longOptions[index].hasArg.RequiredArgument?
    ensures Results(sx, words, i, "") == [(if ":" <= sx.options then ':' as int else '?' as int, None)]
  {
    ColonFirst(sx.options);
    LongLacksRead(sx, words, i, index, name);
  }

  /** A letter that is not in the option string is reported as '?', wherever it stands among
      others in its word. */
  lemma UnknownLetters(sx: Syntax, words: seq<string>, i: nat, flags: string, c: char)
    requires i < |words| && words[i] == "-" + (flags + [c]) && AllFlags(sx, flags)
    requires c == ':' || (c != '-' && c !in sx.options)
    ensures Results(sx, words, i, "") == LettersReport(sx, flags, None, Nothing) + [('?' as int, None)] + Results(sx, words, i + 1, "")
  {
    FlagWordRead(sx, words, i, flags, c);
  }

  lemma SortingFlat(name: string, items: seq<Item>, end: Ending)
    ensures var p := Sorting(items, end);
            [name] + p.opts + p.nons + p.rest == [name] + OptionWords(items) + end.OptionWords() + Operands(items) + end.Rest()
  {
    Reassociate([name], OptionWords(items), end.OptionWords());
  }

  /** The scan of such a command line: every option is reported with its argument, in the
      order of the line, and the operands are left in theirs, with optind at the first. */
  method ScanLine(argv: array<string>, sx: Syntax, ghost items: seq<Item>, ghost end: Ending)
    returns (results: Reported, optind: nat)
    requires sx.Valid() && AllLegal(sx, items) && end.Legal(sx)
    requires argv.Length > 0 && argv[1..] == AllWords(items) + end.Words()
    modifies argv
    ensures results == AllReports(sx, items) + end.Report(sx)
    ensures argv[..] == [old(argv[0])] + OptionWords(items) + end.OptionWords() + Operands(items) + end.Rest()
    ensures optind == 1 + |OptionWords(items)| + |end.OptionWords()|
  {
    assert argv[..][1..] == argv[1..];
    LineRead(sx, argv[..], 1, items, end);
    SortingFlat(argv[0], items, end);
    results, optind := ScanArguments(argv, sx);
  }
}

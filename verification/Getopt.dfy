/** getopt_long with permutation of the argument vector (FLAG_PERMUTE; an option
    string that does not start with '+' or '-'). */
module Getopt {
  import opened Shared
  import opened ArgumentRotation

  datatype HasArg = NoArgument | RequiredArgument | OptionalArgument

  /** An entry of the long_options table; `setsFlag` if its flag pointer is set. */
  datatype LongOption = LongOption(name: string, hasArg: HasArg, setsFlag: bool, val: int)

  /** What the caller passes to every call of one scan. */
  datatype Syntax = Syntax(options: string, longOptions: seq<LongOption>)
  {
    predicate Valid() {
      && (options == "" || (options[0] != '+' && options[0] != '-'))
      && forall i :: 0 <= i < |longOptions| ==> longOptions[i].val != -1
    }

    function BadArg(): int {
      if options != "" && options[0] == ':' then ':' as int else BADCH
    }
  }

  const BADCH: int := '?' as int

  // ---- one call on an option, as a function of the words ----

  /** What a call returns, and where it leaves optind and place. */
  datatype Outcome = Outcome(code: int, optarg: Option<string>, optind: nat, place: string)

  /** strchr (s, c) - s, or |s|. */
  function IndexOf(s: string, c: char): (i: nat)
    ensures i <= |s| && (i < |s| ==> s[i] == c)
    ensures forall k :: 0 <= k < i ==> s[k] != c
  {
    if s == "" || s[0] == c then 0 else 1 + IndexOf(s[1..], c)
  }

  predicate StartsWith(s: string, prefix: string) {
    |prefix| <= |s| && s[..|prefix|] == prefix
  }

  datatype Match = NoMatch | Ambiguous | Found(index: nat)

  /** The name may stand for the option, being shorter than its name. */
  predicate Abbreviates(name: string, option: LongOption) {
    StartsWith(option.name, name) && option.name != name
  }

  /** The first long option from i on with just this name, or |table|. */
  function FirstExact(name: string, table: seq<LongOption>, i: nat): (e: nat)
    requires i <= |table|
    ensures i <= e <= |table|
    decreases |table| - i
  {
    if i == |table| || table[i].name == name then i else FirstExact(name, table, i + 1)
  }

  /** The first from i on that the name abbreviates, or |table|. */
  function FirstAbbreviated(name: string, table: seq<LongOption>, i: nat): (a: nat)
    requires i <= |table|
    ensures i <= a <= |table|
    decreases |table| - i
  {
    if i == |table| || Abbreviates(name, table[i]) then i else FirstAbbreviated(name, table, i + 1)
  }

  /** How many of the first n options the name abbreviates. */
  function Abbreviations(name: string, table: seq<LongOption>, n: nat): nat
    requires n <= |table|
  {
    if n == 0 then 0 else Abbreviations(name, table, n - 1) + if Abbreviates(name, table[n - 1]) then 1 else 0
  }

  /** The option a name stands for.  Two options that it abbreviates make it ambiguous,
      unless the one it names in full stands in front of the second. */
  function FindLong(name: string, table: seq<LongOption>): (m: Match)
    ensures m.Found? ==> m.index < |table|
  {
    var e, a := FirstExact(name, table, 0), FirstAbbreviated(name, table, 0);
    if Abbreviations(name, table, e) >= 2 then Ambiguous
    else if e < |table| then Found(e)
    else if a < |table| then Found(a)
    else NoMatch
  }

  lemma {:induction false} FirstExactIs(name: string, table: seq<LongOption>, i: nat)
    requires i <= |table|
    ensures var e := FirstExact(name, table, i);
            (e < |table| ==> table[e].name == name) && forall j :: i <= j < e ==> table[j].name != name
    decreases |table| - i
  {
    if i < |table| && table[i].name != name {
      FirstExactIs(name, table, i + 1);
    }
  }

  lemma {:induction false} FirstAbbreviatedIs(name: string, table: seq<LongOption>, i: nat)
    requires i <= |table|
    ensures var a := FirstAbbreviated(name, table, i);
            (a < |table| ==> Abbreviates(name, table[a])) && forall j :: i <= j < a ==> !Abbreviates(name, table[j])
    decreases |table| - i
  {
    if i < |table| && !Abbreviates(name, table[i]) {
      FirstAbbreviatedIs(name, table, i + 1);
    }
  }

  lemma {:induction false} AbbreviationsGrow(name: string, table: seq<LongOption>, m: nat, n: nat)
    requires m <= n <= |table|
    ensures Abbreviations(name, table, m) <= Abbreviations(name, table, n)
    ensures Abbreviations(name, table, m) == Abbreviations(name, table, n)
       <==> forall j :: m <= j < n ==> !Abbreviates(name, table[j])
    decreases n - m
  {
    if m < n {
      AbbreviationsGrow(name, table, m, n - 1);
    }
  }

  /** Of the first n options two at least have longer names that begin with this one. */
  ghost predicate TwoBegin(name: string, table: seq<LongOption>, n: nat)
    requires n <= |table|
  {
    exists a, b :: 0 <= a < b < n && name < table[a].name && name < table[b].name
  }

  lemma {:induction false} SomeAbbreviated(name: string, table: seq<LongOption>, n: nat)
    requires n <= |table|
    ensures Abbreviations(name, table, n) > 0 <==> exists a :: 0 <= a < n && name < table[a].name
  {
    if n > 0 {
      SomeAbbreviated(name, table, n - 1);
    }
  }

  lemma {:induction false} TwoAbbreviated(name: string, table: seq<LongOption>, n: nat)
    requires n <= |table|
    ensures Abbreviations(name, table, n) >= 2 <==> TwoBegin(name, table, n)
  {
    if n > 0 {
      TwoAbbreviated(name, table, n - 1);
      SomeAbbreviated(name, table, n - 1);
    }
  }

  /** An option named in full is found if and only if the name does not begin two of the
      longer ones in front of it. */
  lemma FoundInFull(name: string, table: seq<LongOption>, k: nat)
    requires k < |table| && table[k].name == name && forall j :: 0 <= j < k ==> table[j].name != name
    ensures FindLong(name, table) == Found(k) <==> !TwoBegin(name, table, k)
    ensures FindLong(name, table) == Ambiguous <==> TwoBegin(name, table, k)
  {
    FirstExactIs(name, table, 0);
    TwoAbbreviated(name, table, k);
  }

  /** One that no option is the full name of stands for the only one that it begins. */
  lemma FoundAbbreviated(name: string, table: seq<LongOption>, k: nat)
    requires k < |table| && forall j :: 0 <= j < |table| ==> table[j].name != name
    ensures FindLong(name, table) == Found(k)
       <==> name < table[k].name && forall j :: 0 <= j < |table| && j != k ==> !(name < table[j].name)
    ensures FindLong(name, table) == NoMatch <==> forall j :: 0 <= j < |table| ==> !(name < table[j].name)
    ensures FindLong(name, table) == Ambiguous <==> TwoBegin(name, table, |table|)
  {
    var a := FirstAbbreviated(name, table, 0);
    FirstExactIs(name, table, 0);
    FirstAbbreviatedIs(name, table, 0);
    AbbreviationsGrow(name, table, 0, a);
    if a < |table| {
      AbbreviationsGrow(name, table, a + 1, |table|);
    }
    TwoAbbreviated(name, table, |table|);
    assert forall j :: 0 <= j < |table| ==> (Abbreviates(name, table[j]) <==> name < table[j].name);
  }

  /** The name is that of entry k in full, and no two longer names in front of it begin with
      it, or else entry k is the only one whose name begins with it. */
  ghost predicate StandsFor(name: string, table: seq<LongOption>, k: nat) {
    && k < |table|
    && if table[k].name == name
       then (forall j :: 0 <= j < k ==> table[j].name != name) && !TwoBegin(name, table, k)
       else name < table[k].name && forall j :: 0 <= j < |table| && j != k ==> !(name <= table[j].name)
  }

  /** The name begins that of no entry, or those of two that no entry with just this name
      stands in front of. */
  ghost predicate StandsForNone(name: string, table: seq<LongOption>) {
    || (forall j :: 0 <= j < |table| ==> !(name <= table[j].name))
    || exists n: nat :: n <= |table| && TwoBegin(name, table, n) && forall j :: 0 <= j < n ==> table[j].name != name
  }

  lemma TwoBeginMore(name: string, table: seq<LongOption>, m: nat, n: nat)
    requires m <= n <= |table| && TwoBegin(name, table, m)
    ensures TwoBegin(name, table, n)
  {
  }

  /** The lookup of long options, in terms of the names in the table. */
  lemma FindLongIs(name: string, table: seq<LongOption>)
    ensures forall k: nat :: FindLong(name, table) == Found(k) <==> StandsFor(name, table, k)
    ensures !FindLong(name, table).Found? <==> StandsForNone(name, table)
  {
    var e := FirstExact(name, table, 0);
    FirstExactIs(name, table, 0);
    if e < |table| {
      FoundInFull(name, table, e);
      forall n: nat | n <= |table| && TwoBegin(name, table, n) && forall j :: 0 <= j < n ==> table[j].name != name
        ensures n <= e && TwoBegin(name, table, e) {
        TwoBeginMore(name, table, n, e);
      }
    } else {
      forall k: nat | k < |table| ensures FindLong(name, table) == Found(k) <==> StandsFor(name, table, k) {
        FoundAbbreviated(name, table, k);
      }
      if |table| > 0 {
        FoundAbbreviated(name, table, 0);
      }
      forall n: nat | n <= |table| && TwoBegin(name, table, n) ensures TwoBegin(name, table, |table|) {
        TwoBeginMore(name, table, n, |table|);
      }
    }
  }

  /** A name in full behind two options that it abbreviates is not found. */
  lemma FullNameAmbiguous(foobar: LongOption, foobaz: LongOption, foo: LongOption)
    requires foobar.name == "foobar" && foobaz.name == "foobaz" && foo.name == "foo"
    ensures FindLong("foo", [foobar, foobaz, foo]) == Ambiguous && FindLong("foo", [foobar, foo, foobaz]) == Found(1)
  {
    var table, other := [foobar, foobaz, foo], [foobar, foo, foobaz];
    assert Abbreviates("foo", foobar) && Abbreviates("foo", foobaz);
    assert "foo" < table[0].name && "foo" < table[1].name;
    assert TwoBegin("foo", table, 2);
    FoundInFull("foo", table, 2);
    FoundInFull("foo", other, 1);
  }

  /** parse_long_options for the text behind the dashes; optind still at its word. */
  function LongOutcome(sx: Syntax, words: seq<string>, optind: nat, current: string): Outcome
    requires optind < |words|
  {
    var n := IndexOf(current, '=');
    var hasEqual := n < |current|;
    var value := if hasEqual then current[n + 1..] else "";
    var m := FindLong(current[..n], sx.longOptions);
    if !m.Found? then Outcome(BADCH, None, optind + 1, "")
    else
      var o := sx.longOptions[m.index];
      var code := if o.setsFlag then 0 else o.val;
      if hasEqual then
        if o.hasArg.NoArgument? then Outcome(sx.BadArg(), None, optind + 1, "")
        else Outcome(code, Some(value), optind + 1, "")
      else if !o.hasArg.RequiredArgument? then Outcome(code, None, optind + 1, "")
      else if optind + 1 < |words| then Outcome(code, Some(words[optind + 1]), optind + 2, "")
      else Outcome(sx.BadArg(), None, optind + 1, "")
  }

  /** An option letter, found at j in the option string, with `rest` behind it. */
  function LetterOutcome(sx: Syntax, words: seq<string>, optind: nat, c: char, j: nat, rest: string): Outcome
    requires optind < |words| && j < |sx.options|
  {
    if j + 1 == |sx.options| || sx.options[j + 1] != ':' then
      Outcome(c as int, None, if rest == "" then optind + 1 else optind, rest)
    else if rest != "" then Outcome(c as int, Some(rest), optind + 1, "")
    else if j + 2 < |sx.options| && sx.options[j + 2] == ':' then Outcome(c as int, None, optind + 1, "")
    else if optind + 1 < |words| then Outcome(c as int, Some(words[optind + 1]), optind + 2, "")
    else Outcome(sx.BadArg(), None, optind + 1, "")
  }

  /** The next option letter of a word; `place` is what is left of the word.  A '-' that
      is no option letter does not come here: elsewhere than in the word "-", which then
      is a non-option, it begins a long option. */
  function ShortOutcome(sx: Syntax, words: seq<string>, optind: nat, place: string): Outcome
    requires optind < |words| && place != "" && (place[0] == '-' ==> '-' in sx.options)
  {
    var c, rest := place[0], place[1..];
    var j := IndexOf(sx.options, c);
    if c == ':' || (c == '-' && rest != "") || j == |sx.options| then
      Outcome(BADCH, None, if rest == "" then optind + 1 else optind, rest)
    else if c == 'W' && j + 1 < |sx.options| && sx.options[j + 1] == ';' then
      if rest != "" then LongOutcome(sx, words, optind, rest)
      else if optind + 1 < |words| then LongOutcome(sx, words, optind + 1, words[optind + 1])
      else Outcome(sx.BadArg(), None, optind + 1, "")
    else LetterOutcome(sx, words, optind, c, j, rest)
  }

  /** A call in the middle of an option word, or on its first letter. */
  function OptionOutcome(sx: Syntax, words: seq<string>, optind: nat, place: string, wholeWord: bool): Outcome
    requires optind < |words| && place != "" && (wholeWord ==> '-' in sx.options)
  {
    if !wholeWord && place[0] == '-' then LongOutcome(sx, words, optind, place[1..])
    else ShortOutcome(sx, words, optind, place)
  }

  /** A call uses up letters of the word, or moves optind past it and its argument. */
  lemma OutcomeAdvances(sx: Syntax, words: seq<string>, optind: nat, place: string, wholeWord: bool)
    requires optind < |words| && place != "" && (wholeWord ==> '-' in sx.options)
    ensures var o := OptionOutcome(sx, words, optind, place, wholeWord);
            if o.place == "" then optind < o.optind <= |words|
            else o.optind == optind && |o.place| < |place|
  {
  }

  /** A call looks at no word before the one optind is at. */
  lemma OutcomeLooksAhead(sx: Syntax, words: seq<string>, now: seq<string>, optind: nat, place: string, wholeWord: bool)
    requires optind < |words| == |now| && words[optind..] == now[optind..] && place != "" && (wholeWord ==> '-' in sx.options)
    ensures OptionOutcome(sx, now, optind, place, wholeWord) == OptionOutcome(sx, words, optind, place, wholeWord)
  {
    if optind + 1 < |words| {
      assert words[optind + 1] == words[optind..][1] == now[optind..][1] == now[optind + 1];
      if optind + 2 < |words| {
        assert words[optind + 2] == words[optind..][2] == now[optind..][2] == now[optind + 2];
      }
    }
  }

  // ---- a whole scan, as a function of the words ----

  predicate IsNonOption(sx: Syntax, w: string) {
    w == "" || w[0] != '-' || (w == "-" && '-' !in sx.options)
  }

  /** What is left of an option word when scanning of it starts. */
  function WordStart(w: string): string
    requires w != ""
  {
    if w == "-" then w else w[1..]
  }

  /** Where the option that is being scanned ends, argument words included. */
  function OptionEnd(sx: Syntax, words: seq<string>, optind: nat, place: string, wholeWord: bool): (end: nat)
    requires optind < |words| && place != "" && (wholeWord ==> '-' in sx.options)
    ensures optind < end <= |words|
    decreases |place|
  {
    OutcomeAdvances(sx, words, optind, place, wholeWord);
    var o := OptionOutcome(sx, words, optind, place, wholeWord);
    if o.place == "" then o.optind else OptionEnd(sx, words, optind, o.place, false)
  }

  function WordEnd(sx: Syntax, words: seq<string>, i: nat): (end: nat)
    requires i < |words| && !IsNonOption(sx, words[i])
    ensures i < end <= |words|
  {
    OptionEnd(sx, words, i, WordStart(words[i]), words[i] == "-")
  }

  /** The words from i on: options with their arguments, then the "--" if there is
      one; non-options; and whatever follows the "--". */
  datatype Parts = Parts(opts: seq<string>, nons: seq<string>, rest: seq<string>)

  function Partition(sx: Syntax, words: seq<string>, i: nat): Parts
    requires i <= |words|
    decreases |words| - i
  {
    if i == |words| then Parts([], [], [])
    else if IsNonOption(sx, words[i]) then
      var p := Partition(sx, words, i + 1);
      p.(nons := [words[i]] + p.nons)
    else if words[i] == "--" then Parts(["--"], [], words[i + 1..])
    else
      var end := WordEnd(sx, words, i);
      var p := Partition(sx, words, end);
      p.(opts := words[i..end] + p.opts)
  }

  /** The partition loses nothing and adds nothing. */
  lemma {:induction false} PartitionKeepsWords(sx: Syntax, words: seq<string>, i: nat)
    requires i <= |words|
    ensures var p := Partition(sx, words, i);
            multiset(p.opts) + multiset(p.nons) + multiset(p.rest) == multiset(words[i..])
    decreases |words| - i
  {
    if i == |words| {
    } else if IsNonOption(sx, words[i]) {
      PartitionKeepsWords(sx, words, i + 1);
      MoveNonOption(words, i, Partition(sx, words, i + 1));
    } else if words[i] == "--" {
      assert words[i..] == ["--"] + words[i + 1..];
    } else {
      var end := WordEnd(sx, words, i);
      PartitionKeepsWords(sx, words, end);
      MoveBlock(words, i, end, Partition(sx, words, end));
    }
  }

  lemma MoveNonOption(words: seq<string>, i: nat, p: Parts)
    requires i < |words|
    requires multiset(p.opts) + multiset(p.nons) + multiset(p.rest) == multiset(words[i + 1..])
    ensures multiset(p.opts) + multiset([words[i]] + p.nons) + multiset(p.rest) == multiset(words[i..])
  {
    assert words[i..] == [words[i]] + words[i + 1..];
  }

  lemma MoveBlock(words: seq<string>, i: nat, end: nat, p: Parts)
    requires i <= end <= |words|
    requires multiset(p.opts) + multiset(p.nons) + multiset(p.rest) == multiset(words[end..])
    ensures multiset(words[i..end] + p.opts) + multiset(p.nons) + multiset(p.rest) == multiset(words[i..])
  {
    assert words[i..] == words[i..end] + words[end..];
  }

  /** What is to come, for a scan at optind with `place` left of a word. */
  function Remaining(sx: Syntax, words: seq<string>, optind: nat, place: string): Parts
    requires optind <= |words| && (place != "" ==> optind < |words|)
  {
    if place == "" then Partition(sx, words, optind)
    else
      var end := OptionEnd(sx, words, optind, place, false);
      var p := Partition(sx, words, end);
      p.(opts := words[optind..end] + p.opts)
  }

  /** The next call's outcome, non-options having been skipped; None at the end. */
  function NextOutcome(sx: Syntax, words: seq<string>, optind: nat, place: string): Option<Outcome>
    requires optind <= |words| && (place != "" ==> optind < |words|)
    decreases |words| - optind
  {
    if place != "" then Some(OptionOutcome(sx, words, optind, place, false))
    else if optind == |words| then None
    else if IsNonOption(sx, words[optind]) then NextOutcome(sx, words, optind + 1, "")
    else if words[optind] == "--" then None
    else Some(OptionOutcome(sx, words, optind, WordStart(words[optind]), words[optind] == "-"))
  }

  /** How much of the word at optind is still to be scanned. */
  function Left(words: seq<string>, optind: nat, place: string): nat {
    if place == "" && optind < |words| then |words[optind]| + 1 else |place|
  }

  /** The results of all calls up to the one that returns -1. */
  function Results(sx: Syntax, words: seq<string>, optind: nat, place: string): seq<(int, Option<string>)>
    requires optind <= |words| && (place != "" ==> optind < |words|)
    decreases |words| - optind, Left(words, optind, place)
  {
    match NextOutcome(sx, words, optind, place)
    case None => []
    case Some(o) =>
      NextAdvances(sx, words, optind, place);
      [(o.code, o.optarg)] + Results(sx, words, o.optind, o.place)
  }

  lemma {:induction false} NextAdvances(sx: Syntax, words: seq<string>, optind: nat, place: string)
    requires optind <= |words| && (place != "" ==> optind < |words|)
    requires NextOutcome(sx, words, optind, place).Some?
    ensures var o := NextOutcome(sx, words, optind, place).value;
            && o.optind <= |words| && (o.place != "" ==> o.optind < |words|)
            && (optind < o.optind || (optind == o.optind && Left(words, o.optind, o.place) < Left(words, optind, place)))
    decreases |words| - optind
  {
    if place != "" {
      OutcomeAdvances(sx, words, optind, place, false);
    } else if IsNonOption(sx, words[optind]) {
      NextAdvances(sx, words, optind + 1, "");
    } else {
      OutcomeAdvances(sx, words, optind, WordStart(words[optind]), words[optind] == "-");
    }
  }

  // ---- the code ----

  /** What a scan knows: the words before optind, in the order argv has them now. */
  datatype Ledger = Ledger(words: seq<string>, early: seq<string>, nons: seq<string>, late: seq<string>)

  /** argv: early options, then the non-options, then later options, then what has
      not been looked at. */
  ghost predicate Laid(l: Ledger, argv: seq<string>, optind: nat) {
    && optind <= |argv| == |l.words|
    && argv[..optind] == l.early + l.nons + l.late
    && argv[optind..] == l.words[optind..]
    && (l.nons == [] ==> l.late == [])
  }

  /** nonopt_start and nonopt_end say where the non-options stand. */
  ghost predicate Marked(l: Ledger, place: string, nonoptStart: int, nonoptEnd: int) {
    && nonoptStart == (if l.nons == [] then -1 else |l.early|)
    && nonoptEnd == (if l.nons == [] || (l.late == [] && place == "") then -1 else |l.early| + |l.nons|)
  }

  /** What has been sorted out and what is to come make up `total`. */
  ghost predicate Accounted(sx: Syntax, l: Ledger, optind: nat, place: string, total: Parts) {
    && optind <= |l.words| && (place != "" ==> optind < |l.words|)
    && var r := Remaining(sx, l.words, optind, place);
       total == Parts(l.early + l.late + r.opts, l.nons + r.nons, r.rest)
  }

  lemma ExchangesBlocks(l: Ledger, argv: seq<string>, optind: nat)
    requires Laid(l, argv, optind)
    ensures var now := Exchanged(argv, |l.early|, |l.early| + |l.nons|, optind);
            now[..optind] == l.early + l.late + l.nons && now[optind..] == argv[optind..]
  {
    var before := argv[..optind];
    assert before[..|l.early|] == l.early;
    assert before[|l.early|..|l.early| + |l.nons|] == l.nons;
    assert before[|l.early| + |l.nons|..] == l.late;
    assert argv[..|l.early|] == before[..|l.early|];
    assert argv[|l.early|..|l.early| + |l.nons|] == before[|l.early|..|l.early| + |l.nons|];
    assert argv[|l.early| + |l.nons|..optind] == before[|l.early| + |l.nons|..];
  }

  /** Exchanging the blocks in front of the end of the scan leaves argv as wanted. */
  lemma SortedOut(l: Ledger, argv: seq<string>, optind: nat, dashes: seq<string>, rest: seq<string>, total: Parts,
                  start: nat, mid: nat, end: nat)
    requires Laid(l, argv, optind) && argv[optind..] == dashes + rest
    requires total == Parts(l.early + l.late + dashes, l.nons, rest)
    requires start == |l.early| && mid == start + |l.nons| && end == optind + |dashes|
    ensures Exchanged(argv, start, mid, end) == total.opts + total.nons + total.rest
  {
    assert argv[optind..][..|dashes|] == dashes && argv[optind..][|dashes|..] == rest;
    assert argv[end..] == rest;
    assert argv[mid..end] == l.late + dashes by {
      assert argv[mid..end] == argv[mid..optind] + argv[optind..end];
      assert argv[mid..optind] == argv[..optind][mid..];
    }
    assert argv[..start] == argv[..optind][..start] == l.early;
    assert argv[start..mid] == argv[..optind][start..mid] == l.nons;
  }

  lemma NothingToExchange(s: seq<string>, mid: nat, end: nat)
    requires mid <= end <= |s|
    ensures Exchanged(s, mid, mid, end) == s
  {
  }

  /** ... and so does leaving them, when nothing stands behind the non-options. */
  lemma AlreadySorted(l: Ledger, argv: seq<string>, optind: nat, total: Parts)
    requires Laid(l, argv, optind) && l.late == [] && optind == |argv|
    requires total == Parts(l.early + l.late, l.nons, [])
    ensures argv == total.opts + total.nons + total.rest
  {
    assert argv == argv[..optind];
    assert l.early + [] == l.early && l.early + l.nons + [] == l.early + l.nons;
  }

  lemma TotalAtEnd(sx: Syntax, l: Ledger, optind: nat, total: Parts)
    requires Accounted(sx, l, optind, "", total) && optind == |l.words|
    ensures total == Parts(l.early + l.late, l.nons, [])
  {
    assert l.early + l.late + [] == l.early + l.late && l.nons + [] == l.nons;
  }

  lemma TotalAtDashes(sx: Syntax, l: Ledger, argv: seq<string>, optind: nat, total: Parts)
    requires Laid(l, argv, optind) && Accounted(sx, l, optind, "", total)
    requires optind < |argv| && argv[optind] == "--"
    ensures total == Parts(l.early + l.late + ["--"], l.nons, l.words[optind + 1..])
    ensures argv[optind..] == ["--"] + l.words[optind + 1..]
  {
    assert argv[optind..][0] == "--" == l.words[optind..][0];
    assert l.words[optind..] == ["--"] + l.words[optind..][1..];
    assert l.nons + [] == l.nons;
  }

  ghost function AfterNonOption(l: Ledger, w: string): Ledger {
    l.(early := l.early + l.late, nons := l.nons + [w], late := [])
  }

  lemma NonOptionSkipped(sx: Syntax, l: Ledger, argv: seq<string>, optind: nat, total: Parts)
    requires Laid(l, argv, optind) && Accounted(sx, l, optind, "", total)
    requires optind < |argv| && IsNonOption(sx, argv[optind])
    ensures Accounted(sx, AfterNonOption(l, argv[optind]), optind + 1, "", total)
  {
    var w := argv[optind];
    assert argv[optind..][0] == w == l.words[optind..][0];
    assert l.early + l.late + [] == l.early + l.late;
    var p := Partition(sx, l.words, optind + 1);
    assert l.nons + ([w] + p.nons) == l.nons + [w] + p.nons;
  }

  lemma NonOptionBroughtUp(l: Ledger, argv: seq<string>, optind: nat, start: nat, mid: nat)
    requires Laid(l, argv, optind) && optind < |argv|
    requires start == |l.early| && mid == start + |l.nons|
    ensures mid <= optind && Laid(AfterNonOption(l, argv[optind]), Exchanged(argv, start, mid, optind), optind + 1)
  {
    assert argv[optind..][0] == l.words[optind..][0];
    ExchangesBlocks(l, argv, optind);
    Extended(l, Exchanged(argv, start, mid, optind), optind, argv[optind]);
  }

  lemma NonOptionInPlace(l: Ledger, argv: seq<string>, optind: nat)
    requires Laid(l, argv, optind) && optind < |argv| && l.late == []
    ensures Laid(AfterNonOption(l, argv[optind]), argv, optind + 1)
  {
    assert argv[optind..][0] == l.words[optind..][0];
    assert argv[..optind] == l.early + l.late + l.nons;
    Extended(l, argv, optind, argv[optind]);
  }

  lemma Extended(l: Ledger, now: seq<string>, optind: nat, w: string)
    requires optind < |now| == |l.words| && now[..optind] == l.early + l.late + l.nons
    requires now[optind..] == l.words[optind..] && l.words[optind] == w
    ensures Laid(AfterNonOption(l, w), now, optind + 1)
  {
    assert now[optind..][0] == w;
    assert now[..optind + 1] == now[..optind] + [w];
    assert now[optind + 1..] == now[optind..][1..] == l.words[optind..][1..] == l.words[optind + 1..];
    assert l.early + l.late + (l.nons + [w]) + [] == l.early + l.late + l.nons + [w];
  }

  /** The same in the middle of an option, which began as this place and wholeWord say. */
  ghost predicate InOption(sx: Syntax, l: Ledger, optind: nat, place: string, wholeWord: bool, total: Parts) {
    && optind < |l.words| && place != "" && (wholeWord ==> '-' in sx.options)
    && var end := OptionEnd(sx, l.words, optind, place, wholeWord);
       var p := Partition(sx, l.words, end);
       total == Parts(l.early + l.late + (l.words[optind..end] + p.opts), l.nons + p.nons, p.rest)
  }

  /** The ledger once the option that ends at `end` is done. */
  ghost function AfterOption(l: Ledger, optind: nat, end: nat): Ledger
    requires optind <= end <= |l.words|
  {
    if l.nons == [] then l.(early := l.early + l.words[optind..end])
    else l.(late := l.late + l.words[optind..end])
  }

  lemma OptionDone(sx: Syntax, l: Ledger, argv: seq<string>, optind: nat, place: string, wholeWord: bool, total: Parts)
    requires Laid(l, argv, optind) && InOption(sx, l, optind, place, wholeWord, total)
    requires OptionOutcome(sx, l.words, optind, place, wholeWord).place == ""
    ensures var end := OptionOutcome(sx, l.words, optind, place, wholeWord).optind;
            && optind < end <= |argv|
            && Laid(AfterOption(l, optind, end), argv, end)
            && Accounted(sx, AfterOption(l, optind, end), end, "", total)
  {
    OutcomeAdvances(sx, l.words, optind, place, wholeWord);
    var end := OptionOutcome(sx, l.words, optind, place, wholeWord).optind;
    assert end == OptionEnd(sx, l.words, optind, place, wholeWord);
    BlockMoves(l, argv, optind, end);
    var p := Partition(sx, l.words, end);
    assert l.early + l.late + (l.words[optind..end] + p.opts) == l.early + l.late + l.words[optind..end] + p.opts;
    if l.nons == [] {
      assert l.early + l.words[optind..end] + [] == l.early + [] + l.words[optind..end];
    } else {
      assert l.early + (l.late + l.words[optind..end]) == l.early + l.late + l.words[optind..end];
    }
  }

  lemma BlockAt(argv: seq<string>, words: seq<string>, optind: nat, end: nat)
    requires optind <= end <= |argv| == |words| && argv[optind..] == words[optind..]
    ensures argv[..end] == argv[..optind] + words[optind..end] && argv[end..] == words[end..]
  {
    assert argv[optind..end] == argv[optind..][..end - optind] == words[optind..][..end - optind] == words[optind..end];
    assert argv[..end] == argv[..optind] + argv[optind..end];
    assert argv[end..] == argv[optind..][end - optind..] == words[optind..][end - optind..] == words[end..];
  }

  lemma BlockAppended(l: Ledger, optind: nat, end: nat)
    requires optind <= end <= |l.words| && (l.nons == [] ==> l.late == [])
    ensures var m := AfterOption(l, optind, end);
            l.early + l.nons + l.late + l.words[optind..end] == m.early + m.nons + m.late
  {
    var block := l.words[optind..end];
    if l.nons == [] {
      assert l.early + [] + [] + block == (l.early + block) + [] + [];
    } else {
      assert l.early + l.nons + l.late + block == l.early + l.nons + (l.late + block);
    }
  }

  lemma BlockMoves(l: Ledger, argv: seq<string>, optind: nat, end: nat)
    requires Laid(l, argv, optind) && optind <= end <= |argv|
    ensures Laid(AfterOption(l, optind, end), argv, end)
  {
    BlockAt(argv, l.words, optind, end);
    BlockAppended(l, optind, end);
  }

  lemma OptionGoesOn(sx: Syntax, l: Ledger, optind: nat, place: string, wholeWord: bool, total: Parts)
    requires InOption(sx, l, optind, place, wholeWord, total)
    requires OptionOutcome(sx, l.words, optind, place, wholeWord).place != ""
    ensures var o := OptionOutcome(sx, l.words, optind, place, wholeWord);
            o.optind == optind && Accounted(sx, l, optind, o.place, total)
  {
    OutcomeAdvances(sx, l.words, optind, place, wholeWord);
  }

  lemma WordAhead(l: Ledger, argv: seq<string>, optind: nat)
    requires Laid(l, argv, optind) && optind < |argv|
    ensures argv[optind] == l.words[optind]
  {
    assert argv[optind..][0] == l.words[optind..][0];
  }

  /** No option is reported as the end of the scan. */
  lemma OutcomeCode(sx: Syntax, words: seq<string>, optind: nat, place: string, wholeWord: bool)
    requires sx.Valid() && optind < |words| && place != "" && (wholeWord ==> '-' in sx.options)
    ensures OptionOutcome(sx, words, optind, place, wholeWord).code != -1
  {
  }

  class Scanner {
    const argv: array<string>
    const sx: Syntax
    var optind: nat
    var place: string
    var optarg: Option<string>
    var nonoptStart: int
    var nonoptEnd: int

    ghost predicate Valid(l: Ledger, total: Parts)
      reads this, argv
    {
      && sx.Valid() && Laid(l, argv[..], optind) && Marked(l, place, nonoptStart, nonoptEnd)
      && Accounted(sx, l, optind, place, total)
    }

    constructor (argv: array<string>, sx: Syntax)
      requires argv.Length > 0 && sx.Valid()
      ensures this.argv == argv && this.sx == sx
      ensures optind == 1 && place == ""
      ensures var p := Partition(sx, argv[..], 1);
              Valid(Ledger(argv[..], argv[..1], [], []), p.(opts := argv[..1] + p.opts))
    {
      this.argv := argv;
      this.sx := sx;
      optind := 1;
      place := "";
      optarg := None;
      nonoptStart, nonoptEnd := -1, -1;
    }

    method FindLongOption(name: string) returns (m: Match)
      ensures m == FindLong(name, sx.longOptions)
    {
      m := NoMatch;
      for i := 0 to |sx.longOptions|
        invariant FirstExact(name, sx.longOptions, 0) == FirstExact(name, sx.longOptions, i)
        invariant m.NoMatch? || m == Found(FirstAbbreviated(name, sx.longOptions, 0))
        invariant m.NoMatch? ==> FirstAbbreviated(name, sx.longOptions, 0) == FirstAbbreviated(name, sx.longOptions, i)
        invariant m.Found? ==> m.index < |sx.longOptions|
        invariant Abbreviations(name, sx.longOptions, i) == if m.NoMatch? then 0 else 1
      {
        var entry := sx.longOptions[i].name;
        if !StartsWith(entry, name) {
          continue;
        }
        if |entry| == |name| {
          return Found(i);
        }
        if m.NoMatch? {
          m := Found(i);
        } else {
          AbbreviationsGrow(name, sx.longOptions, i + 1, FirstExact(name, sx.longOptions, 0));
          return Ambiguous;
        }
      }
    }

    method ParseLongOptions() returns (code: int)
      requires optind < argv.Length && optarg == None
      modifies this`optind, this`optarg
      ensures var o := LongOutcome(sx, argv[..], old(optind), place);
              code == o.code && optind == o.optind && optarg == o.optarg
    {
      var current := place;
      optind := optind + 1;
      var n := IndexOf(current, '=');
      var hasEqual := n < |current|;
      var m := FindLongOption(current[..n]);
      if !m.Found? {
        return BADCH;
      }
      var o := sx.longOptions[m.index];
      if o.hasArg.NoArgument? && hasEqual {
        return sx.BadArg();
      }
      if o.hasArg.RequiredArgument? || o.hasArg.OptionalArgument? {
        if hasEqual {
          optarg := Some(current[n + 1..]);
        } else if o.hasArg.RequiredArgument? {
          optarg := if optind < argv.Length then Some(argv[optind]) else None;  // argv[argc] is null
          optind := optind + 1;
        }
      }
      if o.hasArg.RequiredArgument? && optarg == None {
        optind := optind - 1;
        return sx.BadArg();
      }
      return if o.setsFlag then 0 else o.val;
    }

    /** "-W" followed by a long option, in its word or in the next. */
    method TakeLongAfterW() returns (code: int)
      requires optind < argv.Length && optarg == None
      modifies this`optind, this`optarg, this`place
      ensures (if old(place) != "" then LongOutcome(sx, argv[..], old(optind), old(place))
               else if old(optind) + 1 < argv.Length
                 then LongOutcome(sx, argv[..], old(optind) + 1, argv[old(optind) + 1])
               else Outcome(sx.BadArg(), None, old(optind) + 1, ""))
              == Outcome(code, optarg, optind, place)
    {
      if place == "" {
        optind := optind + 1;
        if optind >= argv.Length {
          return sx.BadArg();
        }
        place := argv[optind];
      }
      code := ParseLongOptions();
      place := "";
    }

    /** An option letter that was found at oli in the option string. */
    method TakeLetter(optchar: char, oli: nat) returns (code: int)
      requires optind < argv.Length && optarg == None && oli < |sx.options|
      modifies this`optind, this`optarg, this`place
      ensures LetterOutcome(sx, argv[..], old(optind), optchar, oli, old(place)) == Outcome(code, optarg, optind, place)
    {
      if oli + 1 == |sx.options| || sx.options[oli + 1] != ':' {
        if place == "" {
          optind := optind + 1;
        }
      } else {
        if place != "" {
          optarg := Some(place);
        } else if oli + 2 == |sx.options| || sx.options[oli + 2] != ':' {
          optind := optind + 1;
          if optind >= argv.Length {
            return sx.BadArg();
          }
          optarg := Some(argv[optind]);
        }
        place := "";
        optind := optind + 1;
      }
      return optchar as int;
    }

    /** From the long option check on, for a `place` inside an option word. */
    method TakeOption(wholeWord: bool) returns (code: int)
      requires optind < argv.Length && optarg == None && place != "" && (wholeWord ==> '-' in sx.options)
      modifies this`optind, this`optarg, this`place
      ensures OptionOutcome(sx, argv[..], old(optind), old(place), wholeWord) == Outcome(code, optarg, optind, place)
    {
      if !wholeWord && place[0] == '-' {
        place := place[1..];
        code := ParseLongOptions();
        place := "";
        return code;
      }
      var optchar := place[0];
      place := place[1..];
      var oli := IndexOf(sx.options, optchar);
      if optchar == ':' || (optchar == '-' && place != "") || oli == |sx.options| {
        if place == "" {
          optind := optind + 1;
        }
        return BADCH;
      }
      if optchar == 'W' && oli + 1 < |sx.options| && sx.options[oli + 1] == ';' {
        code := TakeLongAfterW();
      } else {
        code := TakeLetter(optchar, oli);
      }
    }

    /** The end of the vector. */
    method AtEnd(ghost l: Ledger, ghost total: Parts)
      requires Valid(l, total) && place == "" && optind == argv.Length
      modifies this, argv
      ensures Sorted(total) && optarg == old(optarg)
    {
      TotalAtEnd(sx, l, optind, total);
      if nonoptEnd != -1 {
        SortedOut(l, argv[..], optind, [], [], total, nonoptStart, nonoptEnd, optind);
        PermuteArgs(nonoptStart, nonoptEnd, optind, argv);
        optind := optind - (nonoptEnd - nonoptStart);
      } else {
        AlreadySorted(l, argv[..], optind, total);
        if nonoptStart != -1 {
          optind := nonoptStart;
        }
      }
      nonoptStart, nonoptEnd := -1, -1;
    }

    /** The non-options so far are brought up to optind, where one more is. */
    method BringUp(ghost l: Ledger)
      requires sx.Valid() && Laid(l, argv[..], optind) && Marked(l, place, nonoptStart, nonoptEnd)
      requires place == "" && optind < argv.Length && nonoptStart != -1 && nonoptEnd != -1
      modifies this`nonoptStart, this`nonoptEnd, argv
      ensures Laid(AfterNonOption(l, old(argv[..])[optind]), argv[..], optind + 1)
      ensures nonoptStart == |l.early| + |l.late| && nonoptEnd == -1
    {
      NonOptionBroughtUp(l, argv[..], optind, nonoptStart, nonoptEnd);
      PermuteArgs(nonoptStart, nonoptEnd, optind, argv);
      nonoptStart := optind - (nonoptEnd - nonoptStart);
      nonoptEnd := -1;
    }

    /** A non-option: the ones before it are brought up to it. */
    method SkipNonOption(ghost l: Ledger, ghost total: Parts) returns (ghost l': Ledger)
      requires Valid(l, total) && place == "" && optind < argv.Length && IsNonOption(sx, argv[optind])
      modifies this, argv
      ensures Valid(l', total) && l'.words == l.words
      ensures optind == old(optind) + 1 && place == "" && optarg == old(optarg)
    {
      l' := AfterNonOption(l, argv[optind]);
      NonOptionSkipped(sx, l, argv[..], optind, total);
      if nonoptStart == -1 {
        NonOptionInPlace(l, argv[..], optind);
        nonoptStart := optind;
      } else if nonoptEnd != -1 {
        BringUp(l);
      } else {
        NonOptionInPlace(l, argv[..], optind);
      }
      optind := optind + 1;
    }

    /** The word "--" ends the scan. */
    method EndOfOptions(ghost l: Ledger, ghost total: Parts)
      requires Valid(l, total) && place == "" && optind < argv.Length && argv[optind] == "--"
      modifies this, argv
      ensures Sorted(total) && optarg == old(optarg)
    {
      TotalAtDashes(sx, l, argv[..], optind, total);
      ghost var here := optind;
      if nonoptStart != -1 && nonoptEnd == -1 {
        nonoptEnd := optind;
      }
      optind := optind + 1;
      if nonoptEnd != -1 {
        SortedOut(l, argv[..], here, ["--"], l.words[optind..], total, nonoptStart, nonoptEnd, optind);
        PermuteArgs(nonoptStart, nonoptEnd, optind, argv);
        optind := optind - (nonoptEnd - nonoptStart);
      } else {
        NothingToExchange(argv[..], here, optind);
        SortedOut(l, argv[..], here, ["--"], l.words[optind..], total, here, here, optind);
      }
      nonoptStart, nonoptEnd := -1, -1;
    }

    /** On an option word, of which `place` is left. */
    ghost predicate Inside(l: Ledger, total: Parts, wholeWord: bool)
      reads this, argv
    {
      && sx.Valid() && Laid(l, argv[..], optind)
      && Marked(l, place, nonoptStart, nonoptEnd)
      && InOption(sx, l, optind, place, wholeWord, total)
    }

    ghost predicate Sorted(total: Parts)
      reads this, argv
    {
      && argv[..] == total.opts + total.nons + total.rest && optind == |total.opts|
      && place == "" && nonoptStart == nonoptEnd == -1
    }

    /** The first option letter of the word at optind comes next. */
    method StartWord(ghost l: Ledger, ghost total: Parts) returns (wholeWord: bool)
      requires Valid(l, total) && place == "" && optind < argv.Length
      requires !IsNonOption(sx, argv[optind]) && argv[optind] != "--"
      modifies this`nonoptEnd, this`place
      ensures Inside(l, total, wholeWord)
      ensures NextOutcome(sx, l.words, optind, "") == Some(OptionOutcome(sx, l.words, optind, place, wholeWord))
    {
      WordAhead(l, argv[..], optind);
      if nonoptStart != -1 && nonoptEnd == -1 {
        nonoptEnd := optind;
      }
      wholeWord := argv[optind] == "-";
      place := WordStart(argv[optind]);
    }

    method SkipNonOptions(ghost l: Ledger, ghost total: Parts) returns (ghost l': Ledger)
      requires Valid(l, total) && optarg == None && place == ""
      modifies this, argv
      ensures Valid(l', total) && l'.words == l.words && optarg == None && place == ""
      ensures optind < argv.Length ==> !IsNonOption(sx, argv[optind])
      ensures NextOutcome(sx, l.words, optind, "") == NextOutcome(sx, l.words, old(optind), "")
    {
      l' := l;
      while optind < argv.Length && IsNonOption(sx, argv[optind])
        invariant l'.words == l.words && optarg == None && place == "" && Valid(l', total)
        invariant NextOutcome(sx, l.words, optind, "") == NextOutcome(sx, l.words, old(optind), "")
      {
        l' := SkipOne(l', total);
      }
    }

    method SkipOne(ghost l: Ledger, ghost total: Parts) returns (ghost l': Ledger)
      requires Valid(l, total) && optarg == None && place == ""
      requires optind < argv.Length && IsNonOption(sx, argv[optind])
      modifies this, argv
      ensures Valid(l', total) && l'.words == l.words && optarg == None && place == "" && optind == old(optind) + 1
      ensures NextOutcome(sx, l.words, optind, "") == NextOutcome(sx, l.words, old(optind), "")
    {
      WordAhead(l, argv[..], optind);
      l' := SkipNonOption(l, total);
    }

    /** The scanning pointer is brought to the next option, or to the end. */
    method UpdatePlace(ghost l: Ledger, ghost total: Parts) returns (ended: bool, wholeWord: bool, ghost l': Ledger)
      requires Valid(l, total) && optarg == None
      modifies this, argv
      ensures optarg == None && l'.words == l.words
      ensures ended <==> NextOutcome(sx, l.words, old(optind), old(place)) == None
      ensures ended ==> Sorted(total)
      ensures !ended ==> Inside(l', total, wholeWord) && NextOutcome(sx, l.words, old(optind), old(place))
                                                         == Some(OptionOutcome(sx, l.words, optind, place, wholeWord))
    {
      l' := l;
      ended, wholeWord := false, false;
      if place != "" {
        return;
      }
      l' := SkipNonOptions(l, total);
      if optind == argv.Length {
        AtEnd(l', total);
        ended := true;
        return;
      }
      WordAhead(l', argv[..], optind);
      if argv[optind] == "--" {
        EndOfOptions(l', total);
        ended := true;
        return;
      }
      wholeWord := StartWord(l', total);
    }

    /** One call of getopt_long. */
    method GetoptLong(ghost l: Ledger, ghost total: Parts) returns (code: int, ghost l': Ledger)
      requires Valid(l, total)
      modifies this, argv
      ensures match NextOutcome(sx, l.words, old(optind), old(place))
              case None => code == -1 && optarg == None && Sorted(total)
              case Some(o) =>
                && o == Outcome(code, optarg, optind, place) && code != -1
                && l'.words == l.words && Valid(l', total)
    {
      optarg := None;
      var ended, wholeWord;
      ended, wholeWord, l' := UpdatePlace(l, total);
      if ended {
        return -1, l';
      }
      ghost var here, left := optind, place;
      code := TakeOption(wholeWord);
      OutcomeLooksAhead(sx, l.words, argv[..], here, left, wholeWord);
      OutcomeCode(sx, l.words, here, left, wholeWord);
      if place == "" {
        OptionDone(sx, l', argv[..], here, left, wholeWord, total);
        l' := AfterOption(l', here, optind);
      } else {
        OptionGoesOn(sx, l', here, left, wholeWord, total);
      }
    }
  }

  lemma ResultsCons(sx: Syntax, words: seq<string>, optind: nat, place: string, o: Outcome)
    requires optind <= |words| && (place != "" ==> optind < |words|)
    requires NextOutcome(sx, words, optind, place) == Some(o)
    requires o.optind <= |words| && (o.place != "" ==> o.optind < |words|)
    ensures Results(sx, words, optind, place) == [(o.code, o.optarg)] + Results(sx, words, o.optind, o.place)
  {
  }

  /** The results so far and the results to come make up `all`. */
  ghost predicate Collected(sx: Syntax, words: seq<string>, optind: nat, place: string,
                            sofar: seq<(int, Option<string>)>, all: seq<(int, Option<string>)>) {
    optind <= |words| && (place != "" ==> optind < |words|) && all == sofar + Results(sx, words, optind, place)
  }

  lemma CollectOne(sx: Syntax, words: seq<string>, optind: nat, place: string, o: Outcome,
                   sofar: seq<(int, Option<string>)>, all: seq<(int, Option<string>)>)
    requires Collected(sx, words, optind, place, sofar, all)
    requires NextOutcome(sx, words, optind, place) == Some(o)
    ensures Collected(sx, words, o.optind, o.place, sofar + [(o.code, o.optarg)], all)
    ensures optind < o.optind || (optind == o.optind && Left(words, o.optind, o.place) < Left(words, optind, place))
  {
    NextAdvances(sx, words, optind, place);
    ResultsCons(sx, words, optind, place, o);
    assert sofar + ([(o.code, o.optarg)] + Results(sx, words, o.optind, o.place))
           == sofar + [(o.code, o.optarg)] + Results(sx, words, o.optind, o.place);
  }

  lemma CollectedAll(sx: Syntax, words: seq<string>, optind: nat, place: string,
                     sofar: seq<(int, Option<string>)>, all: seq<(int, Option<string>)>)
    requires Collected(sx, words, optind, place, sofar, all) && NextOutcome(sx, words, optind, place) == None
    ensures all == sofar
  {
    assert sofar + [] == sofar;
  }

  /** In the middle of a scan: what is left of it, with the results so far, is the whole. */
  ghost predicate Scanning(s: Scanner, l: Ledger, total: Parts, words: seq<string>,
                           sofar: seq<(int, Option<string>)>, all: seq<(int, Option<string>)>)
    reads s, s.argv
  {
    l.words == words && s.Valid(l, total) && Collected(s.sx, words, s.optind, s.place, sofar, all)
  }

  method ScanOne(s: Scanner, ghost l: Ledger, ghost total: Parts, ghost words: seq<string>,
                 sofar: seq<(int, Option<string>)>, ghost all: seq<(int, Option<string>)>)
    returns (code: int, results: seq<(int, Option<string>)>, ghost l': Ledger)
    requires Scanning(s, l, total, words, sofar, all)
    modifies s, s.argv
    ensures code != -1 ==> Scanning(s, l', total, words, results, all)
    ensures code != -1 ==> old(s.optind) < s.optind || (old(s.optind) == s.optind
                             && Left(words, s.optind, s.place) < Left(words, old(s.optind), old(s.place)))
    ensures code == -1 ==> s.Sorted(total) && results == all
  {
    ghost var i, place := s.optind, s.place;
    results := sofar;
    code, l' := s.GetoptLong(l, total);
    if code != -1 {
      CollectOne(s.sx, words, i, place, Outcome(code, s.optarg, s.optind, s.place), results, all);
      results := results + [(code, s.optarg)];
    } else {
      CollectedAll(s.sx, words, i, place, results, all);
    }
  }

  ghost function Whole(sx: Syntax, words: seq<string>): Parts
    requires words != [] && sx.Valid()
  {
    Partition(sx, words, 1).(opts := words[..1] + Partition(sx, words, 1).opts)
  }

  method StartScan(argv: array<string>, sx: Syntax) returns (s: Scanner, ghost l: Ledger)
    requires argv.Length > 0 && sx.Valid()
    ensures fresh(s) && s.argv == argv && s.sx == sx
    ensures Scanning(s, l, Whole(sx, argv[..]), argv[..], [], Results(sx, argv[..], 1, ""))
  {
    l := Ledger(argv[..], argv[..1], [], []);
    s := new Scanner(argv, sx);
  }

  method ScanOn(s: Scanner, ghost l0: Ledger, ghost total: Parts, ghost words: seq<string>,
                ghost all: seq<(int, Option<string>)>) returns (results: seq<(int, Option<string>)>)
    requires Scanning(s, l0, total, words, [], all)
    modifies s, s.argv
    ensures s.Sorted(total) && results == all
  {
    ghost var l := l0;
    results := [];
    var code := 0;
    while code != -1
      invariant code != -1 ==> Scanning(s, l, total, words, results, all)
      invariant code == -1 ==> s.Sorted(total) && results == all
      decreases code != -1, s.argv.Length - s.optind, Left(words, s.optind, s.place)
    {
      code, results, l := ScanOne(s, l, total, words, results, all);
    }
  }

  method ScanSorted(argv: array<string>, sx: Syntax) returns (results: seq<(int, Option<string>)>, optind: nat)
    requires argv.Length > 0 && sx.Valid()
    modifies argv
    ensures results == Results(sx, old(argv[..]), 1, "")
    ensures var w := Whole(sx, old(argv[..])); argv[..] == w.opts + w.nons + w.rest && optind == |w.opts|
  {
    ghost var words := argv[..];
    ghost var total, all := Whole(sx, words), Results(sx, words, 1, "");
    var s;
    ghost var l;
    s, l := StartScan(argv, sx);
    results := ScanOn(s, l, total, words, all);
    optind := s.optind;
  }

  lemma WholeIs(sx: Syntax, words: seq<string>)
    requires words != [] && sx.Valid()
    ensures var p := Partition(sx, words, 1);
            var w := Whole(sx, words);
            w.opts + w.nons + w.rest == [words[0]] + p.opts + p.nons + p.rest && |w.opts| == 1 + |p.opts|
  {
    assert words[..1] == [words[0]];
  }

  /** A complete scan, as httperf makes one of its command line: every call's result,
      and the vector sorted into options, non-options and the words behind "--",
      each in the order the user gave them, with optind at the first non-option. */
  method ScanArguments(argv: array<string>, sx: Syntax) returns (results: seq<(int, Option<string>)>, optind: nat)
    requires argv.Length > 0 && sx.Valid()
    modifies argv
    ensures results == Results(sx, old(argv[..]), 1, "")
    ensures var p := Partition(sx, old(argv[..]), 1);
            && argv[..] == [old(argv[0])] + p.opts + p.nons + p.rest
            && optind == 1 + |p.opts|
  {
    WholeIs(sx, argv[..]);
    results, optind := ScanSorted(argv, sx);
  }
}

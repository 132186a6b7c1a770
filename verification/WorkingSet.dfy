/** The working-set generator: a miss every so often, each to a file num_clients further
    on, and a path that spells the file's number digit by digit. */
module WorkingSet {
  import opened Shared
  import opened Orbits

  const MAX_URI_LEN: nat := 128

  // ----- when it misses

  const UINT_RANGE: nat := 0x1_0000_0000

  /** The file after a miss: the sum is an unsigned int. */
  function Moved(f: nat, numClients: nat, numFiles: nat): nat {
    var g := (f + numClients) % UINT_RANGE;
    if g >= numFiles then g - numFiles else g
  }

  /** The accumulator and the file, and how many misses there have been. */
  datatype Walk = Walk(missProb: real, fileNum: nat, misses: nat)

  function Advance(w: Walk, rate: real, numClients: nat, numFiles: nat): Walk {
    var p := w.missProb + rate;
    if p >= 1.0 then Walk(p - 1.0, Moved(w.fileNum, numClients, numFiles), w.misses + 1)
    else Walk(p, w.fileNum, w.misses)
  }

  function After(start: real, id: nat, rate: real, numClients: nat, numFiles: nat, k: nat): Walk {
    if k == 0 then Walk(start, id, 0)
    else Advance(After(start, id, rate, numClients, numFiles, k - 1), rate, numClients, numFiles)
  }

  lemma FloorIs(x: real, m: int)
    requires m as real <= x < m as real + 1.0
    ensures x.Floor == m
  {
  }

  function Sum(rate: real, k: nat): real {
    if k == 0 then 0.0 else Sum(rate, k - 1) + rate
  }

  lemma {:induction false} SumIs(rate: real, k: nat)
    ensures Sum(rate, k) == k as real * rate
  {
    if k > 0 {
      SumIs(rate, k - 1);
      OneRateMore(k, rate);
    }
  }

  lemma OneRateMore(k: nat, rate: real)
    requires k > 0
    ensures k as real * rate == (k - 1) as real * rate + rate
  {
    assert k as real == (k - 1) as real + 1.0;
  }

  lemma {:induction false} SummedUp(start: real, id: nat, rate: real, numClients: nat, numFiles: nat, k: nat)
    ensures var w := After(start, id, rate, numClients, numFiles, k);
            w.missProb + w.misses as real == start + Sum(rate, k) && w.misses <= k
  {
    if k > 0 {
      SummedUp(start, id, rate, numClients, numFiles, k - 1);
      AdvanceAdds(After(start, id, rate, numClients, numFiles, k - 1), rate, numClients, numFiles);
    }
  }

  /** What the accumulator holds is what the misses have not used up. */
  lemma Accumulated(start: real, id: nat, rate: real, numClients: nat, numFiles: nat, k: nat)
    ensures var w := After(start, id, rate, numClients, numFiles, k);
            w.missProb + w.misses as real == start + k as real * rate && w.misses <= k
  {
    SummedUp(start, id, rate, numClients, numFiles, k);
    SumIs(rate, k);
  }

  lemma AdvanceAdds(w: Walk, rate: real, numClients: nat, numFiles: nat)
    ensures var v := Advance(w, rate, numClients, numFiles);
            v.missProb + v.misses as real == w.missProb + w.misses as real + rate && v.misses <= w.misses + 1
  {
  }

  lemma {:induction false} BelowOne(start: real, id: nat, rate: real, numClients: nat, numFiles: nat, k: nat)
    requires 0.0 <= start < 1.0 && 0.0 <= rate <= 1.0
    ensures 0.0 <= After(start, id, rate, numClients, numFiles, k).missProb < 1.0
  {
    if k > 0 {
      BelowOne(start, id, rate, numClients, numFiles, k - 1);
    }
  }

  ghost predicate Exact(start: real, id: nat, rate: real, numClients: nat, numFiles: nat, k: nat) {
    After(start, id, rate, numClients, numFiles, k).misses == (start + k as real * rate).Floor
  }

  /** The number of misses is the floor of what has accumulated, after any number of
      calls, exactly when the rate is a rate. */
  lemma MissesAreExact(start: real, id: nat, rate: real, numClients: nat, numFiles: nat)
    requires 0.0 <= start < 1.0
    ensures (forall k: nat :: Exact(start, id, rate, numClients, numFiles, k)) <==> 0.0 <= rate <= 1.0
  {
    if 0.0 <= rate <= 1.0 {
      forall k: nat ensures Exact(start, id, rate, numClients, numFiles, k) {
        Accumulated(start, id, rate, numClients, numFiles, k);
        BelowOne(start, id, rate, numClients, numFiles, k);
        FloorIs(start + k as real * rate, After(start, id, rate, numClients, numFiles, k).misses);
      }
    } else {
      var k := NotExact(start, id, rate, numClients, numFiles);
    }
  }

  /** There is one miss a call at most, and no fewer than none. */
  lemma NotExact(start: real, id: nat, rate: real, numClients: nat, numFiles: nat) returns (k: nat)
    requires 0.0 <= start < 1.0 && !(0.0 <= rate <= 1.0)
    ensures !Exact(start, id, rate, numClients, numFiles, k)
  {
    if rate > 1.0 {
      k := TooMany(rate);
      FloorAtLeast(start, k as real * rate, k + 1);
    } else {
      k := TooFew(rate);
      FloorNegative(start, k as real * rate);
    }
    MissesBounded(start, id, rate, numClients, numFiles, k);
  }

  lemma MissesBounded(start: real, id: nat, rate: real, numClients: nat, numFiles: nat, k: nat)
    ensures After(start, id, rate, numClients, numFiles, k).misses <= k
  {
    SummedUp(start, id, rate, numClients, numFiles, k);
  }

  lemma TooMany(rate: real) returns (k: nat)
    requires rate > 1.0
    ensures k as real * rate >= (k + 1) as real
  {
    k := Enough(rate - 1.0, 1.0);
    OneTimeMore(k as real, rate - 1.0);
  }

  lemma OneTimeMore(k: real, step: real)
    ensures k * (step + 1.0) == k * step + k
  {
  }

  lemma TooFew(rate: real) returns (k: nat)
    requires rate < 0.0
    ensures k as real * rate <= -1.0
  {
    k := Enough(-rate, 1.0);
    Negated(k as real, rate);
  }

  lemma Negated(k: real, step: real)
    ensures k * -step == -(k * step)
  {
  }

  lemma FloorAtLeast(start: real, y: real, m: int)
    requires start >= 0.0 && y >= m as real
    ensures (start + y).Floor >= m
  {
  }

  lemma FloorNegative(start: real, y: real)
    requires start < 1.0 && y <= -1.0
    ensures (start + y).Floor < 0
  {
  }

  /** Archimedes: enough steps go any distance. */
  lemma Enough(step: real, distance: real) returns (k: nat)
    requires step > 0.0 && distance > 0.0
    ensures k as real * step >= distance
  {
    var q := distance / step;
    k := q.Floor + 1;
    assert k as real >= q;
    assert q * step == distance;
    assert (k as real - q) * step >= 0.0;
  }

  // ----- where it goes

  /** The file after m misses. */
  function FileAfter(id: nat, m: nat, numClients: nat, numFiles: nat): nat
    requires numFiles > 0
  {
    (id + m * numClients) % numFiles
  }

  /** The file after m misses as the program gets there. */
  function Walked(id: nat, m: nat, numClients: nat, numFiles: nat): nat {
    if m == 0 then id else Moved(Walked(id, m - 1, numClients, numFiles), numClients, numFiles)
  }

  lemma {:induction false} WalkIs(start: real, id: nat, rate: real, numClients: nat, numFiles: nat, k: nat)
    ensures var w := After(start, id, rate, numClients, numFiles, k); w.fileNum == Walked(id, w.misses, numClients, numFiles)
  {
    if k > 0 {
      WalkIs(start, id, rate, numClients, numFiles, k - 1);
    }
  }

  lemma {:induction false} WalkedInSet(id: nat, m: nat, numClients: nat, numFiles: nat)
    requires id < numFiles < UINT_RANGE && numClients <= numFiles
    ensures Walked(id, m, numClients, numFiles) < numFiles
  {
    if m > 0 {
      WalkedInSet(id, m - 1, numClients, numFiles);
      SumModulo(Walked(id, m - 1, numClients, numFiles) + numClients);
    }
  }

  lemma SumModulo(u: nat)
    requires u < 2 * UINT_RANGE
    ensures u % UINT_RANGE == if u < UINT_RANGE then u else u - UINT_RANGE
  {
  }

  /** A step goes where it should if and only if the sum does not wrap around. */
  lemma MovedRight(f: nat, numClients: nat, numFiles: nat)
    requires f < numFiles < UINT_RANGE && numClients <= numFiles
    ensures Moved(f, numClients, numFiles) == (if f + numClients >= numFiles then f + numClients - numFiles else f + numClients)
       <==> f + numClients < UINT_RANGE
  {
    SumModulo(f + numClients);
  }

  /** The last file of the set that the walk from id comes to. */
  function Top(id: nat, numClients: nat, numFiles: nat): int
    requires numFiles > 0
  {
    var g := Gcd(numClients, numFiles);
    if g == 0 then 0 else numFiles - g + id % g
  }

  lemma TopIs(c: Circle, id: nat, f: nat)
    requires c.Valid() && id < c.n && c.lanes == Gcd(c.b, c.n)
    ensures 0 <= Top(id, c.b, c.n) < c.n && c.Lane(Top(id, c.b, c.n)) == c.Lane(id)
    ensures f < c.n && c.Lane(f) == c.Lane(id) ==> f <= Top(id, c.b, c.n)
  {
    var g, top := c.lanes, Top(id, c.b, c.n);
    MulAtLeast(c.len, g);
    Distribute(c.len, -1, g);
    assert top == (c.len - 1) * g + id % g;
    ModUnique(top, c.len - 1, g, id % g);
    if f < c.n && c.Lane(f) == c.Lane(id) {
      QuotientBelow(f, g, c.len);
      NotAbove(f / g, c.len - 1, g);
      assert f == f / g * g + id % g;
    }
  }

  lemma NotAbove(a: nat, b: nat, g: nat)
    requires a <= b
    ensures a * g <= b * g
  {
  }

  /** Every file of its lane is come to. */
  lemma Visited(c: Circle, id: nat, f: nat)
    requires c.Valid() && id < c.n && c.b <= c.n && f < c.n && c.Lane(f) == c.Lane(id)
    ensures FileAfter(id, c.Age(id, f), c.b, c.n) == f
  {
    var m := c.Age(id, f);
    WalkAges(c, id, m);
    ModUnique(m, 0, c.len, m);
    SamePlace(c, id, FileAfter(id, m, c.b, c.n), f);
  }

  lemma {:induction false} WalkedModular(c: Circle, id: nat, m: nat)
    requires c.Valid() && c.lanes == Gcd(c.b, c.n) && id < c.n < UINT_RANGE && c.b <= c.n
    requires Top(id, c.b, c.n) + c.b < UINT_RANGE
    ensures Walked(id, m, c.b, c.n) == FileAfter(id, m, c.b, c.n)
  {
    if m == 0 {
      ModUnique(id, 0, c.n, id);
    } else {
      var f := FileAfter(id, m - 1, c.b, c.n);
      WalkedModular(c, id, m - 1);
      WalkAges(c, id, m - 1);
      TopIs(c, id, f);
      MovedRight(f, c.b, c.n);
      OneFurther(id, m - 1, c.b, c.n);
    }
  }

  ghost predicate ModularAt(id: nat, m: nat, numClients: nat, numFiles: nat)
    requires numFiles > 0
  {
    Walked(id, m, numClients, numFiles) == FileAfter(id, m, numClients, numFiles)
  }

  /** The walk is the modular one if and only if no file it comes to is so far up that the
      next sum wraps around. */
  lemma WalkIsModular(id: nat, numClients: nat, numFiles: nat)
    requires id < numFiles < UINT_RANGE && numClients <= numFiles
    ensures (forall m: nat :: ModularAt(id, m, numClients, numFiles)) <==> Top(id, numClients, numFiles) + numClients < UINT_RANGE
  {
    var c := CircleOf(numFiles, numClients);
    var top := Top(id, numClients, numFiles);
    TopIs(c, id, id);
    if top + numClients < UINT_RANGE {
      forall m: nat ensures ModularAt(id, m, numClients, numFiles) {
        WalkedModular(c, id, m);
      }
    } else {
      var m := c.Age(id, top);
      Visited(c, id, top);
      OneFurther(id, m, numClients, numFiles);
      MovedRight(top, numClients, numFiles);
      assert ModularAt(id, m, numClients, numFiles) ==> !ModularAt(id, m + 1, numClients, numFiles);
    }
  }

  /** Taking numFiles off once is enough. */
  lemma OneFurther(id: nat, m: nat, numClients: nat, numFiles: nat)
    requires id < numFiles && numClients <= numFiles
    ensures var f := FileAfter(id, m, numClients, numFiles) + numClients;
            FileAfter(id, m + 1, numClients, numFiles) == if f >= numFiles then f - numFiles else f
  {
    var u, n := id + m * numClients, numFiles;
    Distribute(m, 1, numClients);
    if u % n + numClients >= n {
      Distribute(u / n, 1, n);
      ModUnique(u + numClients, u / n + 1, n, u % n + numClients - n);
    } else {
      ModUnique(u + numClients, u / n, n, u % n + numClients);
    }
  }

  lemma {:induction false} WalkAges(c: Circle, id: nat, m: nat)
    requires c.Valid() && id < c.n && c.b <= c.n
    ensures var f := FileAfter(id, m, c.b, c.n);
            c.Lane(f) == c.Lane(id) && c.Age(id, f) == m % c.len
  {
    if m == 0 {
      ModUnique(id, 0, c.n, id);
      AgeOfSelf(c, id);
      ModUnique(0, 0, c.len, 0);
    } else {
      WalkAges(c, id, m - 1);
      OneFurther(id, m - 1, c.b, c.n);
      var p, q := FileAfter(id, m - 1, c.b, c.n), FileAfter(id, m, c.b, c.n);
      StepAges(c, id, p, q, if p + c.b >= c.n then 1 else 0);
      NextMod(m - 1, c.len);
    }
  }

  lemma SameResidue(a: nat, b: nat, len: nat)
    requires len > 0 && a <= b
    ensures a % len == b % len <==> (b - a) % len == 0
  {
    if a % len == b % len {
      Distribute(b / len, -(a / len), len);
      ModUnique(b - a, b / len - a / len, len, 0);
    } else if (b - a) % len == 0 {
      ModShift(a, (b - a) / len, len);
    }
  }

  /** A file comes up again exactly every numFiles / gcd misses. */
  lemma Recurrence(id: nat, numClients: nat, numFiles: nat, m: nat, m': nat)
    requires id < numFiles && numClients <= numFiles && m <= m'
    ensures Gcd(numClients, numFiles) * (numFiles / Gcd(numClients, numFiles)) == numFiles
    ensures numFiles / Gcd(numClients, numFiles) > 0
    ensures FileAfter(id, m, numClients, numFiles) == FileAfter(id, m', numClients, numFiles)
       <==> (m' - m) % (numFiles / Gcd(numClients, numFiles)) == 0
  {
    var c := CircleOf(numFiles, numClients);
    ModUnique(numFiles, c.len, c.lanes, 0);
    WalkAges(c, id, m);
    WalkAges(c, id, m');
    SameResidue(m, m', c.len);
    var f, f' := FileAfter(id, m, numClients, numFiles), FileAfter(id, m', numClients, numFiles);
    if m % c.len == m' % c.len {
      SamePlace(c, id, f, f');
    }
  }

  // ----- how a file is spelled

  function Digit(d: nat): (c: char)
    requires d < 10
  {
    '0' + d as char
  }

  function Power(j: nat): (p: nat)
    ensures p >= 1
  {
    if j == 0 then 1 else 10 * Power(j - 1)
  }

  /** The digits of n, most significant first, each behind a slash. */
  function DigitPath(n: nat, digits: nat): string {
    if digits == 0 then "" else DigitPath(n / 10, digits - 1) + ['/', Digit(n % 10)]
  }

  /** Reading a path back. */
  function NumberOf(path: string): nat
    decreases |path|
  {
    if |path| < 2 then 0
    else
      var c := path[|path| - 1];
      10 * NumberOf(path[..|path| - 2]) + if '0' <= c <= '9' then c as int - '0' as int else 0
  }

  /** One round of the loop counter of set_uri, an unsigned int. */
  function NextCounter(j: nat): nat {
    j * 10 % UINT_RANGE
  }

  /** The counter after so many rounds. */
  function Counter(rounds: nat): nat {
    if rounds == 0 then 1 else NextCounter(Counter(rounds - 1))
  }

  /** The largest value the counter takes, after 23 rounds; it is 0 from the 32nd on. */
  const MAX_COUNTER: nat := 4_135_583_744
  const MAX_DIGITS: nat := 23

  /** The values the counter takes. */
  const COUNTERS: seq<nat> := [
      1, 10, 100, 1_000, 10_000, 100_000, 1_000_000, 10_000_000,
      100_000_000, 1_000_000_000, 1_410_065_408, 1_215_752_192, 3_567_587_328, 1_316_134_912, 276_447_232, 2_764_472_320,
      1_874_919_424, 1_569_325_056, 2_808_348_672, 2_313_682_944, 1_661_992_960, 3_735_027_712, 2_990_538_752, 4_135_583_744,
      2_701_131_776, 1_241_513_984, 3_825_205_248, 3_892_314_112, 268_435_456, 2_684_354_560, 1_073_741_824, 2_147_483_648,
      0
    ]

  lemma CountersGrow(k: nat)
    requires k < 32
    ensures NextCounter(COUNTERS[k]) == COUNTERS[k + 1]
  {
  }

  lemma {:induction false} CounterIs(rounds: nat)
    ensures Counter(rounds) == if rounds <= 32 then COUNTERS[rounds] else 0
  {
    if rounds > 0 {
      CounterIs(rounds - 1);
      if rounds <= 32 {
        CountersGrow(rounds - 1);
      }
    }
  }

  lemma CounterBounded(rounds: nat)
    ensures Counter(rounds) <= MAX_COUNTER
  {
    CounterIs(rounds);
  }

  /** The loop comes to an end exactly for working sets up to this size. */
  lemma LoopEnds(numFiles: nat)
    ensures (exists k: nat :: Counter(k) >= numFiles) <==> numFiles <= MAX_COUNTER
  {
    CounterIs(MAX_DIGITS);
    assert numFiles <= MAX_COUNTER ==> Counter(MAX_DIGITS) >= numFiles;
    forall k: nat ensures Counter(k) <= MAX_COUNTER {
      CounterBounded(k);
    }
  }

  lemma {:induction false} CounterBelowPower(k: nat)
    ensures Counter(k) <= Power(k)
  {
    if k > 0 {
      CounterBelowPower(k - 1);
      Remainder(Counter(k - 1) * 10, UINT_RANGE);
    }
  }

  lemma Remainder(a: nat, n: nat)
    requires n > 0
    ensures a % n <= a
  {
  }

  /** How many digits the loop has still to write after so many: until the counter has
      reached numFiles. */
  function DigitsAfter(numFiles: nat, rounds: nat): (d: nat)
    requires numFiles <= MAX_COUNTER && rounds <= MAX_DIGITS
    ensures rounds + d <= MAX_DIGITS
    decreases MAX_DIGITS - rounds
  {
    if Counter(rounds) < numFiles && rounds < MAX_DIGITS then 1 + DigitsAfter(numFiles, rounds + 1) else 0
  }

  lemma {:induction false} DigitsReach(numFiles: nat, rounds: nat)
    requires numFiles <= MAX_COUNTER && rounds <= MAX_DIGITS
    ensures Counter(rounds + DigitsAfter(numFiles, rounds)) >= numFiles
    decreases MAX_DIGITS - rounds
  {
    if rounds < MAX_DIGITS {
      if Counter(rounds) < numFiles {
        DigitsReach(numFiles, rounds + 1);
      }
    } else {
      CounterIs(MAX_DIGITS);
    }
  }

  lemma LastRound(numFiles: nat, rounds: nat)
    requires numFiles <= MAX_COUNTER && rounds <= MAX_DIGITS && Counter(rounds) < numFiles
    ensures rounds < MAX_DIGITS && DigitsAfter(numFiles, rounds) == 1 + DigitsAfter(numFiles, rounds + 1)
  {
    CounterIs(MAX_DIGITS);
  }

  /** The last digit of n goes in front of what is written. */
  lemma DigitIn(n: nat, digits: nat, written: string)
    ensures DigitPath(n / 10, digits) + (['/', Digit(n % 10)] + written) == DigitPath(n, digits + 1) + written
  {
  }

  function DigitsFor(numFiles: nat): nat
    requires numFiles <= MAX_COUNTER
  {
    DigitsAfter(numFiles, 0)
  }

  lemma {:induction false} PathRoundTrip(n: nat, digits: nat)
    requires n < Power(digits)
    ensures NumberOf(DigitPath(n, digits)) == n && |DigitPath(n, digits)| == 2 * digits
    decreases digits
  {
    if digits > 0 {
      PathRoundTrip(n / 10, digits - 1);
      var path := DigitPath(n, digits);
      assert path[..|path| - 2] == DigitPath(n / 10, digits - 1);
    }
  }

  /** There are digits enough for every file of the set. */
  lemma EnoughDigits(numFiles: nat)
    requires numFiles <= MAX_COUNTER
    ensures numFiles <= Power(DigitsFor(numFiles))
  {
    DigitsReach(numFiles, 0);
    CounterBelowPower(DigitsFor(numFiles));
  }

  /** The path of a file names that file and no other. */
  lemma PathNames(n: nat, n': nat, numFiles: nat)
    requires n < numFiles <= MAX_COUNTER && n' < numFiles
    ensures NumberOf(DigitPath(n, DigitsFor(numFiles))) == n
    ensures DigitPath(n, DigitsFor(numFiles)) == DigitPath(n', DigitsFor(numFiles)) ==> n == n'
  {
    EnoughDigits(numFiles);
    PathRoundTrip(n, DigitsFor(numFiles));
    PathRoundTrip(n', DigitsFor(numFiles));
  }

  function Uri(prefix: string, n: nat, numFiles: nat): string
    requires numFiles <= MAX_COUNTER
  {
    prefix + DigitPath(n, DigitsFor(numFiles)) + ".html"
  }

  lemma BeforeNul(buf: string, cp: nat, path: string)
    requires |buf| == MAX_URI_LEN && cp <= 122 && buf[cp..122] == path && buf[122..] == ".html\0"
    ensures buf[cp..127] == path + ".html"
    ensures forall prefix: string :: prefix + buf[cp..127] == prefix + path + ".html"
  {
    assert buf[122..127] == buf[122..][..5];
    forall prefix: string ensures prefix + buf[cp..127] == prefix + path + ".html" {
      assert prefix + (path + ".html") == prefix + path + ".html";
    }
  }

  /** A URI that fits the buffer. */
  function Fitting(prefix: string, n: nat, numFiles: nat): Option<string>
    requires numFiles <= MAX_COUNTER
  {
    var uri := Uri(prefix, n, numFiles);
    if |uri| < MAX_URI_LEN then Some(uri) else None
  }

  class Generator {
    const rate: real
    const numClients: nat
    const numFiles: nat
    const prefix: string
    var missProb: real
    var fileNum: nat
    ghost var misses: nat

    ghost function View(): Walk
      reads this
    {
      Walk(missProb, fileNum, misses)
    }

    /** init, with the number drand48 drew. */
    constructor (start: real, id: nat, rate: real, numClients: nat, numFiles: nat, prefix: string)
      ensures View() == Walk(start, id, 0)
      ensures this.rate == rate && this.numClients == numClients && this.numFiles == numFiles && this.prefix == prefix
    {
      this.rate, this.numClients, this.numFiles, this.prefix := rate, numClients, numFiles, prefix;
      missProb, fileNum, misses := start, id, 0;
    }

    /** The part of set_uri that picks the file. */
    method PickFile()
      modifies this
      ensures View() == Advance(old(View()), rate, numClients, numFiles)
    {
      missProb := missProb + rate;
      if missProb >= 1.0 {
        missProb := missProb - 1.0;
        fileNum := (fileNum + numClients) % UINT_RANGE;
        misses := misses + 1;
        if fileNum >= numFiles {
          fileNum := fileNum - numFiles;
        }
      }
    }

    /** The loop of set_uri: the digits go in from the last one to the first. */
    method Spell(buf: array<char>, end: nat) returns (cp: nat)
      requires numFiles <= MAX_COUNTER && 2 * MAX_DIGITS <= end <= buf.Length
      modifies buf
      ensures cp <= end && buf[cp..end] == DigitPath(fileNum, DigitsFor(numFiles))
      ensures buf[end..] == old(buf[end..])
    {
      cp := end;
      var n := fileNum;
      var j := 1;
      ghost var rounds := 0;
      ghost var path := DigitPath(n, DigitsFor(numFiles));
      while j < numFiles
        invariant rounds <= MAX_DIGITS && j == Counter(rounds) && cp + 2 * rounds == end
        invariant DigitPath(n, DigitsAfter(numFiles, rounds)) + buf[cp..end] == path
        invariant buf[end..] == old(buf[end..])
        decreases MAX_DIGITS - rounds
      {
        LastRound(numFiles, rounds);
        DigitIn(n, DigitsAfter(numFiles, rounds + 1), buf[cp..end]);
        WriteDigit(buf, cp, end, n % 10);
        cp := cp - 2;
        j := NextCounter(j);
        n := n / 10;
        rounds := rounds + 1;
      }
    }

    /** A slash and a digit in front of what is written. */
    method WriteDigit(buf: array<char>, cp: nat, ghost end: nat, d: nat)
      requires 2 <= cp <= end <= buf.Length && d < 10
      modifies buf
      ensures buf[cp - 2..end] == ['/', Digit(d)] + old(buf[cp..end]) && buf[end..] == old(buf[end..])
    {
      buf[cp - 2], buf[cp - 1] := '/', Digit(d);
    }

    /** The buffer with the extension at its end; the last byte stays NUL. */
    method NewBuffer() returns (buf: array<char>)
      ensures fresh(buf) && buf.Length == MAX_URI_LEN && buf[122..] == ".html\0"
    {
      buf := new char[MAX_URI_LEN](_ => '\0');
      buf[122], buf[123], buf[124], buf[125], buf[126] := '.', 'h', 't', 'm', 'l';
    }

    /** The part of set_uri that spells the URI.  The buffer is filled from its end, which
        the length of the URI does not count; None is the exit for want of room. */
    method BuildUri() returns (uri: Option<string>)
      requires numFiles <= MAX_COUNTER
      ensures uri == Fitting(prefix, fileNum, numFiles)
    {
      var buf := NewBuffer();
      var cp := Spell(buf, 122);
      ghost var path := buf[cp..122];
      BeforeNul(buf[..], cp, path);
      if cp < |prefix| {
        return None;
      }
      uri := Some(prefix + buf[cp..127]);
    }

    method SetUri() returns (uri: Option<string>)
      requires numFiles <= MAX_COUNTER
      modifies this
      ensures View() == Advance(old(View()), rate, numClients, numFiles)
      ensures uri == Fitting(prefix, fileNum, numFiles)
    {
      PickFile();
      uri := BuildUri();
    }
  }

  /** The file of the k-th call, in closed form. */
  function NthFile(start: real, id: nat, rate: real, numClients: nat, numFiles: nat, k: nat): nat
    requires 0.0 <= start && 0.0 <= rate && numFiles > 0
  {
    NotNegative(start, rate, k);
    FileAfter(id, (start + k as real * rate).Floor, numClients, numFiles)
  }

  lemma NotNegative(start: real, rate: real, k: nat)
    requires 0.0 <= start && 0.0 <= rate
    ensures 0 <= (start + k as real * rate).Floor
  {
    assert k as real * rate >= 0.0;
  }

  lemma MissesOfCall(start: real, id: nat, rate: real, numClients: nat, numFiles: nat, k: nat)
    requires 0.0 <= start < 1.0 && 0.0 <= rate <= 1.0
    ensures After(start, id, rate, numClients, numFiles, k).misses == (start + k as real * rate).Floor
  {
    MissesAreExact(start, id, rate, numClients, numFiles);
    assert Exact(start, id, rate, numClients, numFiles, k);
  }

  /** As it is where nothing wraps around, by WalkIsModular. */
  lemma FileOfCall(start: real, id: nat, rate: real, numClients: nat, numFiles: nat, k: nat)
    requires 0.0 <= start < 1.0 && 0.0 <= rate <= 1.0 && id < numFiles < UINT_RANGE && numClients <= numFiles
    ensures After(start, id, rate, numClients, numFiles, k).fileNum
            == Walked(id, After(start, id, rate, numClients, numFiles, k).misses, numClients, numFiles) < numFiles
    ensures Top(id, numClients, numFiles) + numClients < UINT_RANGE ==>
              After(start, id, rate, numClients, numFiles, k).fileNum == NthFile(start, id, rate, numClients, numFiles, k)
  {
    var m := After(start, id, rate, numClients, numFiles, k).misses;
    MissesOfCall(start, id, rate, numClients, numFiles, k);
    WalkIs(start, id, rate, numClients, numFiles, k);
    WalkedInSet(id, m, numClients, numFiles);
    WalkIsModular(id, numClients, numFiles);
    assert Top(id, numClients, numFiles) + numClients < UINT_RANGE ==> ModularAt(id, m, numClients, numFiles);
  }

  /** The URIs of the first calls of a client. */
  method Generate(prefix: string, start: real, id: nat, rate: real, numClients: nat, numFiles: nat, calls: nat)
    returns (uris: seq<Option<string>>)
    requires 0.0 <= start < 1.0 && 0.0 <= rate <= 1.0 && id < numClients <= numFiles <= MAX_COUNTER
    ensures |uris| == calls
    ensures forall i: nat :: i < calls ==>
              uris[i] == Fitting(prefix, After(start, id, rate, numClients, numFiles, i + 1).fileNum, numFiles)
    ensures Top(id, numClients, numFiles) + numClients < UINT_RANGE ==> forall i: nat :: i < calls ==>
              uris[i] == Fitting(prefix, NthFile(start, id, rate, numClients, numFiles, i + 1), numFiles)
  {
    var g := new Generator(start, id, rate, numClients, numFiles, prefix);
    uris := [];
    ghost var files: seq<nat> := [];
    for i := 0 to calls
      invariant fresh(g) && g.rate == rate && g.numClients == numClients && g.numFiles == numFiles && g.prefix == prefix
      invariant g.View() == After(start, id, rate, numClients, numFiles, i) && |uris| == i == |files|
      invariant forall k: nat :: k < i ==> files[k] == After(start, id, rate, numClients, numFiles, k + 1).fileNum
      invariant Top(id, numClients, numFiles) + numClients < UINT_RANGE ==> forall k: nat :: k < i ==>
                  files[k] == NthFile(start, id, rate, numClients, numFiles, k + 1)
      invariant forall k: nat :: k < i ==> uris[k] == Fitting(prefix, files[k], numFiles)
    {
      var uri := g.SetUri();
      FileOfCall(start, id, rate, numClients, numFiles, i + 1);
      uris, files := uris + [uri], files + [g.fileNum];
    }
  }
}

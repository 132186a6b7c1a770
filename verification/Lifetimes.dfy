/** The histogram of connection lifetimes, and the median read off it. */
module Lifetimes {
  /** MAX_LIFETIME of 100 seconds in bins of a millisecond. */
  const NUM_BINS: nat := 100000
  const MAX_LIFETIME: real := 100.0
  const BIN_WIDTH: real := 0.001

  function Count(s: seq<real>, p: real -> bool): (n: nat)
    ensures n <= |s|
  {
    if s == [] then 0 else Count(s[..|s| - 1], p) + if p(s[|s| - 1]) then 1 else 0
  }

  function AtMost(s: seq<real>, v: real): nat {
    Count(s, x => x <= v)
  }

  function Below(s: seq<real>, v: real): nat {
    Count(s, x => x < v)
  }

  predicate Half(s: seq<real>, v: real) {
    2 * AtMost(s, v) >= |s|
  }

  /** v is the lower median: at least half of s is at most v, less than half is below it. */
  predicate IsLowerMedian(s: seq<real>, v: real) {
    v in s && Half(s, v) && 2 * Below(s, v) < |s|
  }

  lemma {:induction false} CountMore(s: seq<real>, p: real -> bool, q: real -> bool)
    requires forall k :: 0 <= k < |s| && p(s[k]) ==> q(s[k])
    ensures Count(s, p) <= Count(s, q)
    decreases |s|
  {
    if s != [] {
      CountMore(s[..|s| - 1], p, q);
    }
  }

  lemma {:induction false} CountAll(s: seq<real>, p: real -> bool)
    requires forall k :: 0 <= k < |s| ==> p(s[k])
    ensures Count(s, p) == |s|
    decreases |s|
  {
    if s != [] {
      CountAll(s[..|s| - 1], p);
    }
  }

  lemma {:induction false} CountNone(s: seq<real>, p: real -> bool)
    requires forall k :: 0 <= k < |s| ==> !p(s[k])
    ensures Count(s, p) == 0
    decreases |s|
  {
    if s != [] {
      CountNone(s[..|s| - 1], p);
    }
  }

  /** The least element of s at which half of s is reached. */
  lemma {:induction false} LeastHalf(s: seq<real>, n: nat) returns (found: bool, v: real)
    requires n <= |s|
    ensures found ==> v in s && Half(s, v)
    ensures forall k :: 0 <= k < n && Half(s, s[k]) ==> found && v <= s[k]
    decreases n
  {
    found, v := false, 0.0;
    if n > 0 {
      found, v := LeastHalf(s, n - 1);
      if Half(s, s[n - 1]) && (!found || s[n - 1] < v) {
        found, v := true, s[n - 1];
      }
    }
  }

  /** The greatest element of s below v, if there is one. */
  lemma {:induction false} GreatestBelow(s: seq<real>, v: real, n: nat) returns (found: bool, u: real)
    requires n <= |s|
    ensures found ==> u in s && u < v
    ensures forall k :: 0 <= k < n && s[k] < v ==> found && s[k] <= u
    decreases n
  {
    found, u := false, v;
    if n > 0 {
      found, u := GreatestBelow(s, v, n - 1);
      if s[n - 1] < v && (!found || u < s[n - 1]) {
        found, u := true, s[n - 1];
      }
    }
  }

  lemma {:induction false} Greatest(s: seq<real>, n: nat) returns (k: nat)
    requires 0 < n <= |s|
    ensures k < n && forall j :: 0 <= j < n ==> s[j] <= s[k]
    decreases n
  {
    k := n - 1;
    if n > 1 {
      k := Greatest(s, n - 1);
      if s[k] < s[n - 1] {
        k := n - 1;
      }
    }
  }

  lemma LowerMedianExists(s: seq<real>) returns (v: real)
    requires s != []
    ensures IsLowerMedian(s, v)
  {
    var m := Greatest(s, |s|);
    CountAll(s, y => y <= s[m]);
    assert Half(s, s[m]);
    var half;
    half, v := LeastHalf(s, |s|);
    var found, u := GreatestBelow(s, v, |s|);
    if found {
      CountMore(s, y => y < v, y => y <= u);
      assert !Half(s, u);
    } else {
      CountNone(s, y => y < v);
    }
  }

  lemma LowerMedianUnique(s: seq<real>, v: real, w: real)
    requires IsLowerMedian(s, v) && IsLowerMedian(s, w)
    ensures v == w
  {
    if v < w {
      CountMore(s, x => x <= v, x => x < w);
    } else if w < v {
      CountMore(s, x => x <= w, x => x < v);
    }
  }

  // ----- bins

  /** The slot of a lifetime; the last one takes all that are too long. */
  function Bin(lifetime: real): (bin: nat)
    requires lifetime >= 0.0
    ensures bin <= NUM_BINS
  {
    var bin := (lifetime * 100000.0 / MAX_LIFETIME).Floor;
    if bin >= NUM_BINS then NUM_BINS else bin
  }

  ghost predicate AllLifetimes(s: seq<real>) {
    forall k :: 0 <= k < |s| ==> s[k] >= 0.0
  }

  predicate InBin(x: real, i: nat) {
    x >= 0.0 && Bin(x) == i
  }

  predicate UnderBin(x: real, i: nat) {
    x >= 0.0 && Bin(x) < i
  }

  function InBinCount(s: seq<real>, i: nat): nat {
    Count(s, x => InBin(x, i))
  }

  function UnderBinCount(s: seq<real>, i: nat): nat {
    Count(s, x => UnderBin(x, i))
  }

  lemma {:induction false} OneBinMore(s: seq<real>, i: nat)
    ensures UnderBinCount(s, i + 1) == UnderBinCount(s, i) + InBinCount(s, i)
    decreases |s|
  {
    if s != [] {
      OneBinMore(s[..|s| - 1], i);
    }
  }

  lemma BinAscends(x: real, y: real)
    requires 0.0 <= x <= y
    ensures Bin(x) <= Bin(y)
  {
  }

  lemma BinOfShort(x: real)
    requires x >= 0.0
    ensures Bin(x) < NUM_BINS <==> x < MAX_LIFETIME
  {
  }

  function Middle(i: nat): real {
    (i as real + 0.5) * BIN_WIDTH
  }

  /** The middle of its bin is within half a bin of a short lifetime. */
  lemma MiddleIsNear(x: real, i: nat)
    requires InBin(x, i) && i < NUM_BINS
    ensures -BIN_WIDTH / 2.0 <= Middle(i) - x <= BIN_WIDTH / 2.0
  {
  }

  /** The bin in which half of the lifetimes is reached is the bin of the lower median. */
  lemma MedianBin(s: seq<real>, v: real, i: nat)
    requires AllLifetimes(s) && IsLowerMedian(s, v)
    requires 2 * UnderBinCount(s, i) < |s| <= 2 * UnderBinCount(s, i + 1)
    ensures Bin(v) == i
  {
    if Bin(v) < i {
      forall k | 0 <= k < |s| && s[k] <= v ensures UnderBin(s[k], i) {
        BinAscends(s[k], v);
      }
      CountMore(s, x => x <= v, x => UnderBin(x, i));
    } else if Bin(v) > i {
      forall k | 0 <= k < |s| && UnderBin(s[k], i + 1) ensures s[k] < v {
        if s[k] >= v {
          BinAscends(v, s[k]);
        }
      }
      CountMore(s, x => UnderBin(x, i + 1), x => x < v);
    }
  }

  class Histogram {
    const hist: array<nat>
    var numLifetimes: nat
    ghost var recorded: seq<real>

    ghost predicate Valid()
      reads this, hist
    {
      && hist.Length == NUM_BINS + 1 && numLifetimes == |recorded| && AllLifetimes(recorded)
      && forall i: nat :: i <= NUM_BINS ==> hist[i] == InBinCount(recorded, i)
    }

    constructor ()
      ensures Valid() && recorded == [] && fresh(hist)
    {
      hist := new nat[NUM_BINS + 1](_ => 0);
      numLifetimes, recorded := 0, [];
    }

    /** The part of conn_destroyed that files a lifetime. */
    method Record(lifetime: real)
      requires Valid() && lifetime >= 0.0
      modifies this, hist
      ensures Valid() && recorded == old(recorded) + [lifetime]
    {
      numLifetimes := numLifetimes + 1;
      var bin := Bin(lifetime);
      hist[bin] := hist[bin] + 1;
      ghost var was := recorded;
      recorded := recorded + [lifetime];
      assert recorded[..|was|] == was;
    }

    /** The median printed by dump: within half a bin of the lower median if at least half
        of the lifetimes are short, and 0 otherwise. */
    method Median() returns (median: real)
      requires Valid() && numLifetimes > 0
      ensures 2 * Below(recorded, 100.0) >= |recorded| ==>
                forall v :: IsLowerMedian(recorded, v) ==> -0.0005 <= median - v <= 0.0005
      ensures 2 * Below(recorded, 100.0) < |recorded| ==> median == 0.0
    {
      median := 0.0;
      var n := 0;
      NoneUnderZero(recorded);
      for i := 0 to NUM_BINS
        invariant n == UnderBinCount(recorded, i) && 2 * n < |recorded|
      {
        OneBinMore(recorded, i);
        n := n + hist[i];
        if n as real >= 0.5 * numLifetimes as real {
          median := Middle(i);
          MedianFound(recorded, i);
          return;
        }
      }
      ShortOnes(recorded, NUM_BINS);
    }
  }

  lemma NoneUnderZero(s: seq<real>)
    ensures UnderBinCount(s, 0) == 0
  {
    CountNone(s, x => UnderBin(x, 0));
  }

  lemma ShortOnes(s: seq<real>, i: nat)
    requires AllLifetimes(s) && i <= NUM_BINS
    ensures UnderBinCount(s, i) <= Below(s, MAX_LIFETIME)
    ensures i == NUM_BINS ==> UnderBinCount(s, i) == Below(s, MAX_LIFETIME)
  {
    forall k | 0 <= k < |s| ensures Bin(s[k]) < NUM_BINS <==> s[k] < MAX_LIFETIME {
      BinOfShort(s[k]);
    }
    CountMore(s, x => UnderBin(x, i), x => x < MAX_LIFETIME);
    if i == NUM_BINS {
      CountMore(s, x => x < MAX_LIFETIME, x => UnderBin(x, i));
    }
  }

  lemma MedianFound(s: seq<real>, i: nat)
    requires AllLifetimes(s) && i < NUM_BINS
    requires 2 * UnderBinCount(s, i) < |s| <= 2 * UnderBinCount(s, i + 1)
    ensures 2 * Below(s, MAX_LIFETIME) >= |s|
    ensures forall v :: IsLowerMedian(s, v) ==> -BIN_WIDTH / 2.0 <= Middle(i) - v <= BIN_WIDTH / 2.0
  {
    ShortOnes(s, i + 1);
    forall v | IsLowerMedian(s, v) ensures -BIN_WIDTH / 2.0 <= Middle(i) - v <= BIN_WIDTH / 2.0 {
      MedianBin(s, v, i);
      MiddleIsNear(v, i);
    }
  }
}

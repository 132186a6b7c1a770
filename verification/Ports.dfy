/** Local port numbers: a bitmap of free ports, searched upwards from the port handed
    out last. */
module Ports {
  import opened Bits

  const MIN_IP_PORT: int := 1024
  const MAX_IP_PORT: int := 65535
  const WORDS: nat := 1008

  function PortOf(i: nat, bit: nat): int {
    bit + i * 64 + MIN_IP_PORT
  }

  predicate IsFree(words: seq<bv64>, port: int)
    requires |words| == WORDS
  {
    MIN_IP_PORT <= port <= MAX_IP_PORT && IsSet(words[(port - MIN_IP_PORT) / 64], (port - MIN_IP_PORT) % 64)
  }

  ghost function FreePorts(words: seq<bv64>): set<int>
    requires |words| == WORDS
  {
    set port | MIN_IP_PORT <= port <= MAX_IP_PORT && IsFree(words, port)
  }

  lemma PortAt(i: nat, bit: nat)
    requires i < WORDS && bit < 64
    ensures MIN_IP_PORT <= PortOf(i, bit) <= MAX_IP_PORT
    ensures (PortOf(i, bit) - MIN_IP_PORT) / 64 == i && (PortOf(i, bit) - MIN_IP_PORT) % 64 == bit
  {
  }

  lemma FreeAt(words: seq<bv64>, i: nat, bit: nat)
    requires |words| == WORDS && i < WORDS && bit < 64
    ensures PortOf(i, bit) in FreePorts(words) <==> IsSet(words[i], bit)
  {
    PortAt(i, bit);
  }

  /** Where a port is in the bitmap. */
  lemma PlaceOf(port: int) returns (i: nat, bit: nat)
    requires MIN_IP_PORT <= port <= MAX_IP_PORT
    ensures i < WORDS && bit < 64 && PortOf(i, bit) == port
  {
    i, bit := (port - MIN_IP_PORT) / 64, (port - MIN_IP_PORT) % 64;
  }

  // ----- lffs

  /** The least set bit from `from` up to but not including `limit`, or `limit`. */
  function LowestFrom(w: bv64, from: nat, limit: nat): (n: nat)
    requires from <= limit <= 64
    ensures from <= n <= limit && (n < limit ==> IsSet(w, n))
    ensures forall m: nat :: from <= m < n ==> !IsSet(w, m)
    decreases limit - from
  {
    if from == limit || IsSet(w, from) then from else LowestFrom(w, from + 1, limit)
  }

  /** ffs sees the low 32 bits of its argument. */
  function Ffs(w: bv64): nat {
    var n := LowestFrom(w, 0, 32);
    if n == 32 then 0 else n + 1
  }

  /** `wide` says whether the second half of a word is looked at: on FreeBSD, and
      elsewhere only where SIZEOF_LONG is defined. */
  function Lffs(w: bv64, wide: bool): nat {
    var low := Ffs(w);
    if low == 0 && wide then
      var high := Ffs(w >> 32);
      if high > 0 then high + 32 else 0
    else low
  }

  lemma HighHalf(w: bv64, n: nat)
    requires n < 32
    ensures IsSet(w >> 32, n) == IsSet(w, n + 32)
  {
    var b, c := Amount(n), Amount(n + 32);
    AmountUp(n, b, c);
    IsSetBit(w >> 32, n, b);
    IsSetBit(w, n + 32, c);
    ShiftedBit(w, b);
  }

  lemma HighFfs(w: bv64, high: bv64)
    requires high == w >> 32
    ensures Ffs(high) > 0 ==> IsSet(w, Ffs(high) + 31)
    ensures forall m: nat :: 32 <= m < 64 && (Ffs(high) == 0 || m < Ffs(high) + 31) ==> !IsSet(w, m)
  {
    var r := Ffs(high);
    if r > 0 {
      HighHalf(w, r - 1);
    }
    forall m: nat | 32 <= m < 64 && (r == 0 || m < r + 31) ensures !IsSet(w, m) {
      HighHalf(w, m - 32);
    }
  }

  lemma LowFfs(w: bv64)
    requires Ffs(w) > 0
    ensures w != 0 && Ffs(w) <= 32 && IsSet(w, Ffs(w) - 1)
    ensures forall m: nat :: m + 1 < Ffs(w) ==> !IsSet(w, m)
  {
    ZeroWord(w);
  }

  lemma LowEmpty(w: bv64)
    requires Ffs(w) == 0
    ensures forall m: nat :: m < 32 ==> !IsSet(w, m)
  {
  }

  /** The wide form numbers the lowest set bit of the whole word, from one. */
  lemma LffsIsLowest(w: bv64)
    ensures Lffs(w, true) == 0 <==> w == 0
    ensures Lffs(w, true) <= 64
    ensures Lffs(w, true) > 0 ==> IsSet(w, Lffs(w, true) - 1)
    ensures forall m: nat :: m + 1 < Lffs(w, true) ==> !IsSet(w, m)
  {
    if Ffs(w) > 0 {
      LowFfs(w);
    } else {
      var high := w >> 32;
      LowEmpty(w);
      HighFfs(w, high);
      ZeroWord(w);
    }
  }

  /** Without the second half, a word is read right exactly when its low half has a set
      bit, or nothing has. */
  lemma NarrowLffs(w: bv64)
    ensures Lffs(w, false) == Lffs(w, true) <==> w == 0 || exists n: nat :: n < 32 && IsSet(w, n)
  {
    var high := w >> 32;
    HighFfs(w, high);
    ZeroWord(w);
  }

  // ----- the search

  /** How many steps upwards, with wrap-around, from word `from` to word i. */
  function Gap(from: nat, i: nat): int {
    if i >= from then i - from else i + WORDS - from
  }

  /** The words passed on the way from `from` to i are empty. */
  ghost predicate Passed(words: seq<bv64>, from: nat, i: nat)
    requires |words| == WORDS
  {
    forall j: nat :: j < WORDS && 0 < Gap(from, j) < Gap(from, i) ==> words[j] == 0
  }

  ghost predicate Least(free: set<int>, from: int, port: int) {
    port in free && from <= port && forall q :: q in free && from <= q ==> port <= q
  }

  /** What port_get promises: the least free port from the cursor on; failing that, the
      least free port below the word the cursor is in; failing that, none. */
  ghost predicate Handed(free: set<int>, base: int, cursor: int, port: int) {
    if exists q :: q in free && cursor <= q then Least(free, cursor, port)
    else if exists q :: q in free && q < base then Least(free, MIN_IP_PORT, port)
    else port == -1
  }

  ghost predicate LeavesFrom(mask: bv64, above: nat) {
    above <= 64 && forall n: nat :: n < 64 ==> (IsSet(mask, n) <==> above <= n)
  }

  /** bit is the lowest set bit of word that is not below `from`. */
  ghost predicate LowestSet(word: bv64, from: nat, bit: nat) {
    from <= bit < 64 && IsSet(word, bit) && forall n: nat :: from <= n < bit ==> !IsSet(word, n)
  }

  ghost predicate NoneFrom(word: bv64, above: nat) {
    forall n: nat :: above <= n < 64 ==> !IsSet(word, n)
  }

  lemma NoneLeft(words: seq<bv64>, previous: nat, above: nat)
    requires |words| == WORDS && previous < WORDS && above <= 64
    requires forall j: nat :: j < WORDS && j != previous ==> words[j] == 0
    requires NoneFrom(words[previous], above)
    ensures Handed(FreePorts(words), PortOf(previous, 0), PortOf(previous, above), -1)
  {
    forall q | q in FreePorts(words) ensures PortOf(previous, 0) <= q < PortOf(previous, above) {
      var i, n := PlaceOf(q);
      FreeAt(words, i, n);
      ZeroWord(words[i]);
    }
  }

  lemma FreeFrom(words: seq<bv64>, i: nat, above: nat, q: int) returns (j: nat, n: nat)
    requires |words| == WORDS && i < WORDS && above <= 64
    requires q in FreePorts(words) && PortOf(i, above) <= q
    ensures j < WORDS && n < 64 && q == PortOf(j, n) && IsSet(words[j], n)
    ensures i < j || (i == j && above <= n)
  {
    j, n := PlaceOf(q);
    FreeAt(words, j, n);
  }

  lemma FoundHere(words: seq<bv64>, previous: nat, above: nat, bit: nat)
    requires |words| == WORDS && previous < WORDS && LowestSet(words[previous], above, bit)
    ensures Handed(FreePorts(words), PortOf(previous, 0), PortOf(previous, above), PortOf(previous, bit))
  {
    FreeAt(words, previous, bit);
    var free, cursor, port := FreePorts(words), PortOf(previous, above), PortOf(previous, bit);
    forall q | q in free && cursor <= q ensures port <= q {
      var j, n := FreeFrom(words, previous, above, q);
    }
    assert port in free && cursor <= port;
  }

  /** A word with a free port has not been passed. */
  lemma NotPassed(words: seq<bv64>, previous: nat, i: nat, j: nat, n: nat)
    requires |words| == WORDS && previous < WORDS && Passed(words, previous, i) && j < WORDS && n < 64 && IsSet(words[j], n)
    ensures j == previous || Gap(previous, i) <= Gap(previous, j)
  {
    ZeroWord(words[j]);
  }

  lemma FoundAbove(words: seq<bv64>, previous: nat, above: nat, i: nat, bit: nat)
    requires |words| == WORDS && previous < i < WORDS && above <= 64
    requires NoneFrom(words[previous], above) && Passed(words, previous, i) && LowestSet(words[i], 0, bit)
    ensures Handed(FreePorts(words), PortOf(previous, 0), PortOf(previous, above), PortOf(i, bit))
  {
    FreeAt(words, i, bit);
    var free, cursor, port := FreePorts(words), PortOf(previous, above), PortOf(i, bit);
    forall q | q in free && cursor <= q ensures port <= q {
      var j, n := FreeFrom(words, previous, above, q);
      NotPassed(words, previous, i, j, n);
      assert i <= j;
    }
    assert port in free && cursor <= port;
  }

  lemma FoundBelow(words: seq<bv64>, previous: nat, above: nat, i: nat, bit: nat)
    requires |words| == WORDS && i < previous < WORDS && above <= 64
    requires NoneFrom(words[previous], above) && Passed(words, previous, i) && LowestSet(words[i], 0, bit)
    ensures Handed(FreePorts(words), PortOf(previous, 0), PortOf(previous, above), PortOf(i, bit))
  {
    FreeAt(words, i, bit);
    var free, cursor, port := FreePorts(words), PortOf(previous, above), PortOf(i, bit);
    forall q | q in free ensures q < cursor {
      if cursor <= q {
        var j, n := FreeFrom(words, previous, above, q);
        NotPassed(words, previous, i, j, n);
        assert false;
      }
    }
    forall q | q in free ensures port <= q {
      var j, n := PlaceOf(q);
      FreeAt(words, j, n);
      NotPassed(words, previous, i, j, n);
      assert i <= j;
    }
    assert port in free && port < PortOf(previous, 0);
  }

  lemma FoundLater(words: seq<bv64>, previous: nat, above: nat, i: nat, bit: nat)
    requires |words| == WORDS && previous < WORDS && above <= 64 && i < WORDS && i != previous
    requires NoneFrom(words[previous], above) && Passed(words, previous, i) && LowestSet(words[i], 0, bit)
    ensures Handed(FreePorts(words), PortOf(previous, 0), PortOf(previous, above), PortOf(i, bit))
  {
    if previous < i {
      FoundAbove(words, previous, above, i, bit);
    } else {
      FoundBelow(words, previous, above, i, bit);
    }
  }

  lemma TakenPort(words: seq<bv64>, i: nat, bit: nat, b: bv64, word: bv64)
    requires |words| == WORDS && i < WORDS && bit < 64 && b == Amount(bit) && word == words[i] & !(1 << b)
    ensures FreePorts(words[i := word]) == FreePorts(words) - {PortOf(i, bit)}
  {
    forall q | MIN_IP_PORT <= q <= MAX_IP_PORT
      ensures q in FreePorts(words[i := word]) <==> q in FreePorts(words) && q != PortOf(i, bit) {
      var j, n := PlaceOf(q);
      FreeAt(words, j, n);
      FreeAt(words[i := word], j, n);
      IsSetClear(words[i], bit, n, word, b);
    }
  }

  lemma ReleasedPort(words: seq<bv64>, i: nat, bit: nat, b: bv64, word: bv64)
    requires |words| == WORDS && i < WORDS && bit < 64 && b == Amount(bit) && word == words[i] | (1 << b)
    ensures FreePorts(words[i := word]) == FreePorts(words) + {PortOf(i, bit)}
  {
    PortAt(i, bit);
    forall q | MIN_IP_PORT <= q <= MAX_IP_PORT
      ensures q in FreePorts(words[i := word]) <==> q in FreePorts(words) || q == PortOf(i, bit) {
      var j, n := PlaceOf(q);
      FreeAt(words, j, n);
      FreeAt(words[i := word], j, n);
      IsSetSet(words[i], bit, n, word, b);
    }
  }

  lemma AllOnes(w: bv64)
    requires w == !0
    ensures forall n: nat :: n < 64 ==> IsSet(w, n)
  {
    forall n: nat | n < 64 ensures IsSet(w, n) {
      ConstantBits(Amount(n));
    }
  }

  lemma AllZeros(w: bv64)
    requires w == 0
    ensures forall n: nat :: n < 64 ==> !IsSet(w, n)
  {
    ZeroWord(w);
  }

  lemma BothSet(v: bv64, w: bv64, n: nat, both: bv64)
    requires n < 64 && both == v & w
    ensures IsSet(both, n) <==> IsSet(v, n) && IsSet(w, n)
  {
    var c := Amount(n);
    BothBits(v, w, c);
    IsSetBit(v, n, c);
    IsSetBit(w, n, c);
    IsSetBit(both, n, c);
  }

  lemma MaskedLowest(word: bv64, mask: bv64, from: nat, both: bv64)
    requires LeavesFrom(mask, from) && both == word & mask
    ensures both == 0 ==> NoneFrom(word, from)
    ensures both != 0 ==> Lffs(both, true) > 0 && LowestSet(word, from, Lffs(both, true) - 1)
  {
    LffsIsLowest(both);
    ZeroWord(both);
    forall n: nat | n < 64 ensures IsSet(both, n) <==> IsSet(word, n) && from <= n {
      BothSet(word, mask, n, both);
    }
  }

  lemma MaskEmpty(word: bv64, mask: bv64, from: nat, both: bv64)
    requires LeavesFrom(mask, from) && both == word & mask
    ensures both == 0 <==> NoneFrom(word, from)
  {
    MaskedLowest(word, mask, from, both);
  }

  /** With the narrow lffs a word can be read only if its low half has a bit from the
      mask on. */
  ghost predicate HasLow(word: bv64, from: nat) {
    exists n: nat :: from <= n < 32 && IsSet(word, n)
  }

  lemma MaskedLow(word: bv64, mask: bv64, from: nat, both: bv64)
    requires LeavesFrom(mask, from) && both == word & mask
    ensures !HasLow(word, from) ==> Lffs(both, false) == 0
    ensures HasLow(word, from) ==> Lffs(both, false) > 0 && LowestSet(word, from, Lffs(both, false) - 1)
  {
    var r := Ffs(both);
    if r > 0 {
      LowFfs(both);
      BothSet(word, mask, r - 1, both);
      forall n: nat | from <= n < r - 1 ensures !IsSet(word, n) {
        BothSet(word, mask, n, both);
      }
      assert LowestSet(word, from, r - 1);
    } else {
      LowEmpty(both);
      forall n: nat | from <= n < 32 ensures !IsSet(word, n) {
        BothSet(word, mask, n, both);
      }
    }
  }

  /** The expression of port_get, free bits under the mask, and what lffs makes of it;
      -1 if lffs sees no bit. */
  method LowestUnder(word: bv64, mask: bv64, wide: bool, ghost from: nat) returns (bit: int)
    requires LeavesFrom(mask, from) && !NoneFrom(word, from)
    ensures bit == -1 <==> !wide && !HasLow(word, from)
    ensures bit != -1 ==> bit >= 0 && LowestSet(word, from, bit)
  {
    MaskedLowest(word, mask, from, word & mask);
    MaskedLow(word, mask, from, word & mask);
    bit := Lffs(word & mask, wide) - 1;
  }

  lemma NotAPort(words: seq<bv64>)
    requires |words| == WORDS
    ensures FreePorts(words) - {-1} == FreePorts(words)
  {
  }

  method MaskAfter(bit: nat) returns (mask: bv64)
    requires bit < 64
    ensures LeavesFrom(mask, bit + 1)
  {
    if bit >= 63 {
      mask := 0;
      AllZeros(mask);
    } else {
      var b := Amount(bit);
      ghost var top := Amount(63);
      AmountOrder(bit, 63);
      mask := !((1 << (b + 1)) - 1);
      forall n: nat | n < 64 ensures IsSet(mask, n) <==> bit < n {
        MaskAbove(bit, n, mask, b);
      }
    }
  }

  /** The word that port_get comes to: the current one, or the next that is not empty;
      the current one too if all others are empty. */
  ghost predicate Reached(words: seq<bv64>, previous: nat, above: nat, i: nat)
    requires |words| == WORDS && previous < WORDS
  {
    if i == previous then
      NoneFrom(words[previous], above) ==> forall j: nat :: j < WORDS && j != previous ==> words[j] == 0
    else
      i < WORDS && NoneFrom(words[previous], above) && words[i] != 0 && Passed(words, previous, i)
  }

  /** What the narrow lffs needs: a bit in the low half of the word that is reached, under
      the mask, if a word with a free port is reached at all. */
  ghost predicate LowReached(words: seq<bv64>, previous: nat, above: nat, i: nat)
    requires |words| == WORDS && previous < WORDS && i < WORDS
  {
    if i == previous then NoneFrom(words[previous], above) || HasLow(words[previous], above)
    else HasLow(words[i], 0)
  }

  /** The first port of the same word. */
  function FirstOf(port: int): int {
    port - (port - MIN_IP_PORT) % 64
  }

  /** The port, if it is one, is of the low half of its word. */
  predicate InLowHalf(port: int) {
    port == -1 || (port - MIN_IP_PORT) % 64 < 32
  }

  class LocalAddr {
    const portFreeMap: array<bv64>
    /** Whether lffs looks at both halves of a word. */
    const wide: bool
    var mask: bv64
    var previous: nat
    /** The mask leaves the bits from this one on. */
    ghost var above: nat

    ghost predicate Valid()
      reads this, portFreeMap
    {
      portFreeMap.Length == WORDS && previous < WORDS && LeavesFrom(mask, above)
    }

    ghost function Free(): set<int>
      reads portFreeMap
      requires portFreeMap.Length == WORDS
    {
      FreePorts(portFreeMap[..])
    }

    ghost function Base(): int
      reads this
    {
      PortOf(previous, 0)
    }

    /** One past the port handed out last, as long as the search goes on from there. */
    ghost function Cursor(): int
      reads this
    {
      PortOf(previous, above)
    }

    constructor (wide: bool)
      ensures Valid() && fresh(portFreeMap) && Cursor() == MIN_IP_PORT && this.wide == wide
      ensures forall port :: port in Free() <==> MIN_IP_PORT <= port <= MAX_IP_PORT
    {
      this.wide := wide;
      portFreeMap := new bv64[WORDS](_ => !0);
      mask, previous, above := !0, 0, 0;
      new;
      AllOnes(!0);
    }

    method StoreWord(i: nat, word: bv64)
      requires portFreeMap.Length == WORDS && i < WORDS
      modifies portFreeMap
      ensures portFreeMap[..] == old(portFreeMap[..])[i := word]
    {
      portFreeMap[i] := word;
    }

    method PortPut(port: int)
      requires Valid() && MIN_IP_PORT <= port <= MAX_IP_PORT
      modifies portFreeMap
      ensures Valid() && Free() == old(Free()) + {port}
    {
      var i := (port - MIN_IP_PORT) / 64;
      var bit := (port - MIN_IP_PORT) % 64;
      var b := Amount(bit);
      var word := portFreeMap[i] | (1 << b);
      ReleasedPort(portFreeMap[..], i, bit, b, word);
      StoreWord(i, word);
    }

    method ClearBitOf(i: nat, bit: nat)
      requires portFreeMap.Length == WORDS && i < WORDS && bit < 64
      modifies portFreeMap
      ensures Free() == old(Free()) - {PortOf(i, bit)}
    {
      var b := Amount(bit);
      var word := portFreeMap[i] & !(1 << b);
      TakenPort(portFreeMap[..], i, bit, b, word);
      StoreWord(i, word);
    }

    /** The loop of port_get: the next word with a free port, if there is another. */
    method NextWord() returns (i: nat)
      requires Valid()
      ensures i < WORDS
      ensures i == previous ==> forall j: nat :: j < WORDS && j != previous ==> portFreeMap[j] == 0
      ensures i != previous ==> portFreeMap[i] != 0 && Passed(portFreeMap[..], previous, i)
    {
      i := previous;
      while true
        invariant i < WORDS && Passed(portFreeMap[..], previous, i)
        invariant i != previous ==> portFreeMap[i] == 0
        decreases WORDS - Gap(previous, i)
      {
        i := i + 1;
        if i >= WORDS {
          i := 0;
        }
        if i == previous {
          return;
        }
        if portFreeMap[i] != 0 {
          return;
        }
      }
    }

    /** What port_get does with the word it has come to.  If lffs sees no bit the original
        shifts by -1, so what becomes of the word is not determined: junk stands for it. */
    method TakeLowest(i: nat, ghost from: nat, junk: bv64) returns (port: int, ghost bit: nat)
      requires Valid() && i < WORDS && LeavesFrom(mask, from) && !NoneFrom(portFreeMap[i], from)
      modifies this, portFreeMap
      ensures Valid() && previous == i && above > 0
      ensures wide || HasLow(old(portFreeMap[i]), from) ==>
                && Free() == old(Free()) - {port} && Cursor() == port + 1
                && LowestSet(old(portFreeMap[i]), from, bit) && port == PortOf(i, bit)
      ensures !wide && !HasLow(old(portFreeMap[i]), from) ==> port == PortOf(i, 0) - 1
    {
      var lowest := LowestUnder(portFreeMap[i], mask, wide, from);
      previous := i;
      if lowest == -1 {
        bit := 0;
        port := PortOf(i, 0) - 1;
        NoBit(junk, i);
      } else {
        bit := lowest;
        mask := MaskAfter(lowest);
        above := bit + 1;
        ClearBitOf(i, lowest);
        port := PortOf(i, lowest);
      }
    }

    /** A bit number of -1 counts as unsigned, and so as the last one, for the mask. */
    method NoBit(junk: bv64, i: nat)
      requires Valid() && i < WORDS
      modifies this`mask, this`above, portFreeMap
      ensures Valid() && above > 0
    {
      mask := 0;
      above := 64;
      AllZeros(mask);
      StoreWord(i, junk);
    }

    /** A word reached by the search is looked at without the mask. */
    method TakeAny(i: nat, junk: bv64) returns (port: int, ghost bit: nat)
      requires Valid() && i < WORDS && portFreeMap[i] != 0
      modifies this, portFreeMap
      ensures Valid() && previous == i && above > 0
      ensures wide || HasLow(old(portFreeMap[i]), 0) ==>
                && Free() == old(Free()) - {port} && Cursor() == port + 1
                && LowestSet(old(portFreeMap[i]), 0, bit) && port == PortOf(i, bit)
      ensures !wide && !HasLow(old(portFreeMap[i]), 0) ==> port == PortOf(i, 0) - 1
    {
      mask := !0;
      above := 0;
      AllOnes(mask);
      ZeroWord(portFreeMap[i]);
      port, bit := TakeLowest(i, 0, junk);
    }

    method GetHere(junk: bv64) returns (port: int)
      requires Valid() && !NoneFrom(portFreeMap[previous], above)
      modifies this, portFreeMap
      ensures Valid() && previous == old(previous) && above > 0
      ensures wide || HasLow(old(portFreeMap[previous]), old(above)) ==>
                && Free() == old(Free()) - {port} && Cursor() == port + 1 && port != -1
                && Handed(old(Free()), old(Base()), old(Cursor()), port)
      ensures !wide && !HasLow(old(portFreeMap[previous]), old(above)) ==> port == PortOf(previous, 0) - 1
    {
      ghost var bit;
      ghost var words, here, from := portFreeMap[..], previous, above;
      port, bit := TakeLowest(previous, above, junk);
      if wide || HasLow(words[here], from) {
        FoundHere(words, here, from, bit);
        PortAt(here, bit);
      }
    }

    method GetFrom(i: nat, junk: bv64) returns (port: int)
      requires Valid() && i < WORDS && i != previous && portFreeMap[i] != 0
      requires NoneFrom(portFreeMap[previous], above) && Passed(portFreeMap[..], previous, i)
      modifies this, portFreeMap
      ensures Valid() && previous == i && above > 0
      ensures wide || HasLow(old(portFreeMap[i]), 0) ==>
                && Free() == old(Free()) - {port} && Cursor() == port + 1 && port != -1
                && Handed(old(Free()), old(Base()), old(Cursor()), port)
      ensures !wide && !HasLow(old(portFreeMap[i]), 0) ==> port == PortOf(i, 0) - 1
    {
      ghost var bit;
      ghost var words, start, from := portFreeMap[..], previous, above;
      port, bit := TakeAny(i, junk);
      if wide || HasLow(words[i], 0) {
        FoundLater(words, start, from, i, bit);
        PortAt(i, bit);
      }
    }

    /** Nothing left under the mask: on to another word, if there is one. */
    method GetBeyond(junk: bv64) returns (port: int)
      requires Valid() && NoneFrom(portFreeMap[previous], above)
      modifies this, portFreeMap
      ensures Valid() && Reached(old(portFreeMap[..]), old(previous), old(above), previous)
      ensures above > 0 || (above == old(above) && previous == old(previous))
      ensures wide || LowReached(old(portFreeMap[..]), old(previous), old(above), previous) ==>
                && Free() == old(Free()) - {port} && Cursor() == (if port == -1 then old(Cursor()) else port + 1)
                && Handed(old(Free()), old(Base()), old(Cursor()), port)
      ensures !wide && !LowReached(old(portFreeMap[..]), old(previous), old(above), previous) ==>
                port == PortOf(previous, 0) - 1
    {
      var i := NextWord();
      if i == previous {
        NoneLeft(portFreeMap[..], i, above);
        port := -1;
        NotAPort(portFreeMap[..]);
      } else {
        port := GetFrom(i, junk);
      }
    }

    method NothingLeft() returns (none: bool)
      requires Valid()
      ensures none <==> NoneFrom(portFreeMap[previous], above)
    {
      var both := portFreeMap[previous] & mask;
      MaskEmpty(portFreeMap[previous], mask, above, both);
      none := both == 0;
    }

    /** port_get.  With the wide lffs it hands out what it promises, and the search goes on
        above it; with the narrow one so if and only if the word it comes to can be read. */
    method PortGet(junk: bv64) returns (port: int)
      requires Valid()
      modifies this, portFreeMap
      ensures Valid() && Reached(old(portFreeMap[..]), old(previous), old(above), previous)
      ensures above > 0 || (above == old(above) && previous == old(previous))
      ensures wide || LowReached(old(portFreeMap[..]), old(previous), old(above), previous) ==>
                && Free() == old(Free()) - {port} && Cursor() == (if port == -1 then old(Cursor()) else port + 1)
                && Handed(old(Free()), old(Base()), old(Cursor()), port)
      ensures !wide && !LowReached(old(portFreeMap[..]), old(previous), old(above), previous) ==>
                port == PortOf(previous, 0) - 1 && !Handed(old(Free()), old(Base()), old(Cursor()), port)
    {
      ghost var words, start, from := portFreeMap[..], previous, above;
      var none := NothingLeft();
      if none {
        port := GetBeyond(junk);
      } else {
        port := GetHere(junk);
      }
      if !wide && !LowReached(words, start, from, previous) {
        MissedIsNotHanded(words, start, from, previous);
      }
    }
  }

  lemma HandedOnce(free: set<int>, base: int, cursor: int, p: int, q: int)
    ensures Handed(free, base, cursor, p) && Handed(free, base, cursor, q) ==> p == q
  {
  }

  /** The port that is due is in the word that is reached, and the narrow lffs can read
      that word exactly when the port is in its low half. */
  lemma DueInReached(words: seq<bv64>, previous: nat, above: nat, i: nat) returns (q: int)
    requires |words| == WORDS && previous < WORDS && above <= 64 && i < WORDS && Reached(words, previous, above, i)
    ensures Handed(FreePorts(words), PortOf(previous, 0), PortOf(previous, above), q)
    ensures LowReached(words, previous, above, i) <==> InLowHalf(q)
    ensures q != -1 ==> FirstOf(q) == PortOf(i, 0)
  {
    if i == previous && NoneFrom(words[previous], above) {
      NoneLeft(words, previous, above);
      q := -1;
    } else {
      ZeroWord(words[i]);
      var from := if i == previous then above else 0;
      var n := LowestFrom(words[i], from, 64);
      q := PortOf(i, n);
      PortAt(i, n);
      if i == previous {
        FoundHere(words, previous, above, n);
      } else {
        FoundLater(words, previous, above, i, n);
      }
    }
  }

  lemma MissedIsNotHanded(words: seq<bv64>, previous: nat, above: nat, i: nat)
    requires |words| == WORDS && previous < WORDS && above <= 64 && i < WORDS
    requires Reached(words, previous, above, i) && !LowReached(words, previous, above, i)
    ensures !Handed(FreePorts(words), PortOf(previous, 0), PortOf(previous, above), PortOf(i, 0) - 1)
  {
    var q := DueInReached(words, previous, above, i);
    HandedOnce(FreePorts(words), PortOf(previous, 0), PortOf(previous, above), PortOf(i, 0) - 1, q);
  }

  // ----- whole runs

  datatype Request = Get | Put(port: int)

  predicate IsPort(port: int) {
    MIN_IP_PORT <= port <= MAX_IP_PORT
  }

  /** The ports out after these requests and answers; -1 is the answer when there is none. */
  ghost function Out(requests: seq<Request>, given: seq<int>): set<int>
    requires |requests| == |given|
  {
    if requests == [] then {}
    else
      var k := |requests| - 1;
      var out := Out(requests[..k], given[..k]);
      match requests[k]
      case Get => if given[k] == -1 then out else out + {given[k]}
      case Put(port) => out - {port}
  }

  /** The port handed out last. */
  ghost function Last(requests: seq<Request>, given: seq<int>): int
    requires |requests| == |given|
  {
    if requests == [] then MIN_IP_PORT - 1
    else
      var k := |requests| - 1;
      if requests[k].Get? && given[k] != -1 then given[k] else Last(requests[..k], given[..k])
  }

  /** The ports of one word of the bitmap. */
  function Block(port: int): int {
    (port - MIN_IP_PORT) / 64
  }

  /** A port is never handed out while it is out.  Ports are handed out upwards, until
      all higher ones are out; and there is none to hand out only when all are out but
      some of the last one's block that are not above it. */
  ghost predicate Proper(out: set<int>, last: int, port: int) {
    if port == -1 then
      forall q :: IsPort(q) && q !in out ==> q <= last && Block(q) == Block(last)
    else
      && IsPort(port) && port !in out
      && (last < port || forall q :: IsPort(q) && last < q ==> q in out)
  }

  ghost function NotOut(out: set<int>): set<int> {
    set q | MIN_IP_PORT <= q <= MAX_IP_PORT && q !in out
  }

  /** What port_get promises, told by the ports that are out and the one handed out last. */
  ghost predicate Due(out: set<int>, last: int, port: int) {
    Handed(NotOut(out), if last < MIN_IP_PORT then MIN_IP_PORT else FirstOf(last), last + 1, port)
  }

  /** The cursor stands behind the port handed out last, in the same word. */
  lemma CursorIs(free: set<int>, out: set<int>, previous: nat, above: nat, port: int)
    requires previous < WORDS && above <= 64 && (above == 0 ==> previous == 0) && free == NotOut(out)
    ensures Due(out, PortOf(previous, above) - 1, port) <==> Handed(free, PortOf(previous, 0), PortOf(previous, above), port)
  {
    if above > 0 {
      PortAt(previous, above - 1);
    }
  }

  lemma InOneBlock(last: int, q: int)
    requires IsPort(last) && FirstOf(last) <= q <= last
    ensures Block(q) == Block(last)
  {
  }

  /** The port that is due is a proper one. */
  lemma DueIsProper(out: set<int>, last: int, port: int)
    requires MIN_IP_PORT - 1 <= last <= MAX_IP_PORT && Due(out, last, port)
    ensures Proper(out, last, port)
  {
    if port == -1 {
      forall q | IsPort(q) && q !in out ensures q <= last && Block(q) == Block(last) {
        assert q in NotOut(out);
        InOneBlock(last, q);
      }
    } else {
      forall q | IsPort(q) && last < q && port <= last ensures q in out {
        assert q in NotOut(out) ==> false;
      }
    }
  }

  lemma BeforeBlock(q: int)
    requires IsPort(q)
    ensures FirstOf(q) - 1 >= MIN_IP_PORT - 1 && FirstOf(q) <= q
  {
  }

  /** The port in front of the word that the due port is in is not. */
  lemma MissedIsImproper(out: set<int>, last: int, q: int)
    requires MIN_IP_PORT - 1 <= last <= MAX_IP_PORT && Due(out, last, q) && q != -1
    ensures !Proper(out, last, FirstOf(q) - 1)
  {
    assert q in NotOut(out);
    BeforeBlock(q);
    var port := FirstOf(q) - 1;
    if IsPort(port) && port !in out {
      assert port in NotOut(out);
    }
  }

  /** Answer k is the port that is due. */
  ghost predicate RightAt(requests: seq<Request>, given: seq<int>, k: nat)
    requires k < |requests| == |given|
  {
    requests[k].Get? ==> Due(Out(requests[..k], given[..k]), Last(requests[..k], given[..k]), given[k])
  }

  /** The port due for request k is in the high half of its word, and the answer is the
      port in front of the word. */
  ghost predicate MissedAt(requests: seq<Request>, given: seq<int>, k: nat)
    requires k < |requests| == |given|
  {
    requests[k].Get? && exists q :: !InLowHalf(q) && given[k] == FirstOf(q) - 1
                                    && Due(Out(requests[..k], given[..k]), Last(requests[..k], given[..k]), q)
  }

  ghost function OutAfter(out: set<int>, request: Request, port: int): set<int> {
    match request
    case Get => if port == -1 then out else out + {port}
    case Put(p) => out - {p}
  }

  lemma OutOfOneMore(requests: seq<Request>, given: seq<int>, request: Request, port: int)
    requires |requests| == |given|
    ensures Out(requests + [request], given + [port]) == OutAfter(Out(requests, given), request, port)
    ensures Last(requests + [request], given + [port])
         == if request.Get? && port != -1 then port else Last(requests, given)
  {
    var rs, gs := requests + [request], given + [port];
    assert rs[..|requests|] == requests && gs[..|requests|] == given;
  }

  /** The address knows which ports are out, and which it handed out last. */
  ghost predicate Agrees(addr: LocalAddr, out: set<int>, last: int)
    requires addr.Valid()
    reads addr, addr.portFreeMap
  {
    addr.Free() == NotOut(out) && addr.Cursor() == last + 1 && (addr.above == 0 ==> addr.previous == 0)
  }

  method PutBack(addr: LocalAddr, port: int, ghost out: set<int>, ghost last: int)
    requires addr.Valid() && IsPort(port)
    modifies addr.portFreeMap
    ensures addr.Valid() && (old(Agrees(addr, out, last)) ==> Agrees(addr, out - {port}, last))
  {
    addr.PortPut(port);
  }

  /** port_get, told by the port that is due. */
  method GetDue(addr: LocalAddr, junk: bv64) returns (port: int, ghost due: int)
    requires addr.Valid()
    modifies addr, addr.portFreeMap
    ensures addr.Valid() && Handed(old(addr.Free()), old(addr.Base()), old(addr.Cursor()), due)
    ensures addr.above == 0 ==> old(addr.above) == 0 && addr.previous == old(addr.previous)
    ensures if addr.wide || InLowHalf(due) then
              && port == due && addr.Free() == old(addr.Free()) - {port}
              && addr.Cursor() == if port == -1 then old(addr.Cursor()) else port + 1
            else port == FirstOf(due) - 1
  {
    ghost var words, previous, above := addr.portFreeMap[..], addr.previous, addr.above;
    port := addr.PortGet(junk);
    due := DueInReached(words, previous, above, addr.previous);
    if addr.wide || InLowHalf(due) {
      HandedOnce(FreePorts(words), PortOf(previous, 0), PortOf(previous, above), port, due);
    }
  }

  lemma OneMoreOut(free: set<int>, out: set<int>, port: int)
    requires free == NotOut(out)
    ensures free - {port} == NotOut(OutAfter(out, Get, port))
  {
  }

  method GetNext(addr: LocalAddr, junk: bv64, ghost out: set<int>, ghost last: int) returns (port: int, ghost due: int)
    requires addr.Valid()
    modifies addr, addr.portFreeMap
    ensures addr.Valid()
    ensures old(Agrees(addr, out, last)) ==>
              && Due(out, last, due)
              && (if addr.wide || InLowHalf(due) then
                    port == due && Agrees(addr, OutAfter(out, Get, port), if port == -1 then last else port)
                  else port == FirstOf(due) - 1)
  {
    ghost var free, previous, above := addr.Free(), addr.previous, addr.above;
    ghost var agreed := Agrees(addr, out, last);
    port, due := GetDue(addr, junk);
    if agreed {
      CursorIs(free, out, previous, above, due);
      OneMoreOut(free, out, port);
    }
  }

  ghost predicate InStep(addr: LocalAddr, done: seq<Request>, given: seq<int>)
    requires addr.Valid() && |done| == |given|
    reads addr, addr.portFreeMap
  {
    Agrees(addr, Out(done, given), Last(done, given))
  }

  /** The first `good` answers are the ports that were due, for the narrow lffs all in low
      halves; and the next one, if there is one, is not. */
  ghost predicate RightUpTo(wide: bool, requests: seq<Request>, given: seq<int>, good: nat)
    requires |requests| == |given|
  {
    && good <= |requests|
    && (forall k :: 0 <= k < good ==> RightAt(requests, given, k))
    && (forall k :: 0 <= k < good && requests[k].Get? && !wide ==> InLowHalf(given[k]))
    && (good < |requests| ==> !wide && MissedAt(requests, given, good))
  }

  lemma RightFurther(wide: bool, requests: seq<Request>, given: seq<int>, good: nat, request: Request, port: int,
                     due: int)
    requires |requests| == |given| && RightUpTo(wide, requests, given, good)
    requires good == |requests| && request.Get? ==>
               && Due(Out(requests, given), Last(requests, given), due)
               && port == if wide || InLowHalf(due) then due else FirstOf(due) - 1
    ensures RightUpTo(wide, requests + [request], given + [port],
                      if good == |requests| && (request.Put? || wide || InLowHalf(due)) then good + 1 else good)
  {
    var rs, gs := requests + [request], given + [port];
    forall k | 0 <= k < |requests|
      ensures RightAt(rs, gs, k) == RightAt(requests, given, k) && MissedAt(rs, gs, k) == MissedAt(requests, given, k) {
      assert rs[..k] == requests[..k] && gs[..k] == given[..k];
    }
    assert rs[..|requests|] == requests && gs[..|requests|] == given;
  }

  method AnswerNext(addr: LocalAddr, request: Request, junk: bv64, ghost done: seq<Request>, ghost given: seq<int>,
                    ghost good: nat)
    returns (port: int, ghost good': nat)
    requires addr.Valid() && (request.Put? ==> IsPort(request.port))
    requires |done| == |given| && RightUpTo(addr.wide, done, given, good)
    requires good == |done| ==> InStep(addr, done, given)
    modifies addr, addr.portFreeMap
    ensures addr.Valid() && RightUpTo(addr.wide, done + [request], given + [port], good')
    ensures good' == |done| + 1 ==> InStep(addr, done + [request], given + [port])
  {
    ghost var due := 0;
    match request {
      case Get => port, due := GetNext(addr, junk, Out(done, given), Last(done, given));
      case Put(p) => port := 0; PutBack(addr, p, Out(done, given), Last(done, given));
    }
    OutOfOneMore(done, given, request, port);
    RightFurther(addr.wide, done, given, good, request, port, due);
    good' := if good == |done| && (request.Put? || addr.wide || InLowHalf(due)) then good + 1 else good;
  }

  /** Any run of requests on a fresh address.  The wide lffs answers all of them with the
      port that is due; the narrow one does until the port due is in the high half of its
      word, and then gives the port in front of that word. */
  method Serve(wide: bool, requests: seq<Request>, junk: bv64) returns (given: seq<int>, ghost good: nat)
    requires forall k :: 0 <= k < |requests| && requests[k].Put? ==> IsPort(requests[k].port)
    ensures |given| == |requests| && RightUpTo(wide, requests, given, good)
    ensures wide ==> good == |requests|
  {
    var addr := new LocalAddr(wide);
    given := [];
    good := 0;
    ghost var done: seq<Request> := [];
    for k := 0 to |requests|
      invariant |given| == k && done == requests[..k]
      invariant addr.Valid() && fresh(addr) && fresh(addr.portFreeMap) && addr.wide == wide
      invariant RightUpTo(wide, done, given, good)
      invariant good == k ==> InStep(addr, done, given)
    {
      var port;
      port, good := AnswerNext(addr, requests[k], junk, done, given, good);
      TakeOneMore(requests, k);
      done, given := done + [requests[k]], given + [port];
    }
    TakeAll(requests);
  }

  /** A request answered as it should be: see Proper. */
  ghost predicate ProperAt(requests: seq<Request>, given: seq<int>, k: nat)
    requires k < |requests| == |given|
  {
    requests[k].Get? ==> Proper(Out(requests[..k], given[..k]), Last(requests[..k], given[..k]), given[k])
  }

  lemma {:induction false} LastIsPort(wide: bool, requests: seq<Request>, given: seq<int>, good: nat, k: nat)
    requires |requests| == |given| && RightUpTo(wide, requests, given, good) && k <= good
    ensures MIN_IP_PORT - 1 <= Last(requests[..k], given[..k]) <= MAX_IP_PORT
  {
    if k > 0 {
      LastIsPort(wide, requests, given, good, k - 1);
      assert requests[..k][..k - 1] == requests[..k - 1] && given[..k][..k - 1] == given[..k - 1];
      assert RightAt(requests, given, k - 1);
    }
  }

  /** So no port is handed out while it is out, ports are handed out upwards, and the first
      answer the narrow lffs gets wrong is not a proper one. */
  lemma ServedProperly(wide: bool, requests: seq<Request>, given: seq<int>, good: nat, k: nat)
    requires |requests| == |given| && RightUpTo(wide, requests, given, good) && k <= good && k < |requests|
    ensures ProperAt(requests, given, k) <==> k < good
  {
    var out, last := Out(requests[..k], given[..k]), Last(requests[..k], given[..k]);
    LastIsPort(wide, requests, given, good, k);
    if k < good {
      assert RightAt(requests, given, k);
      if requests[k].Get? {
        DueIsProper(out, last, given[k]);
      }
    } else {
      assert MissedAt(requests, given, k);
      var q :| !InLowHalf(q) && given[k] == FirstOf(q) - 1 && Due(out, last, q);
      MissedIsImproper(out, last, q);
    }
  }

  lemma TakeOneMore(requests: seq<Request>, k: nat)
    requires k < |requests|
    ensures requests[..k + 1] == requests[..k] + [requests[k]]
  {
  }

  lemma TakeAll<T>(s: seq<T>)
    ensures s[..|s|] == s
  {
  }

  /** Every port from this one on is free, and the search is about to begin with it. */
  ghost predicate FreeFromHere(addr: LocalAddr, port: int)
    reads addr, addr.portFreeMap
    requires addr.Valid()
  {
    addr.Cursor() == port && forall q :: q in addr.Free() <==> IsPort(q) && port <= q
  }

  /** Ports handed out by a fresh address and never put back: the narrow lffs gives out 32
      of them, and then 1023. */
  method HandOut(wide: bool, junk: bv64) returns (ports: seq<int>)
    ensures |ports| == 33
    ensures forall k :: 0 <= k < 32 ==> ports[k] == MIN_IP_PORT + k
    ensures ports[32] == if wide then MIN_IP_PORT + 32 else 1023
  {
    var addr := new LocalAddr(wide);
    ports := [];
    for k := 0 to 32
      invariant addr.Valid() && fresh(addr) && fresh(addr.portFreeMap) && addr.wide == wide
      invariant FreeFromHere(addr, MIN_IP_PORT + k)
      invariant |ports| == k && forall j :: 0 <= j < k ==> ports[j] == MIN_IP_PORT + j
    {
      var port := NextFree(addr, k, junk);
      ports := ports + [port];
    }
    var port := NextFree(addr, 32, junk);
    ports := ports + [port];
  }

  method NextFree(addr: LocalAddr, ghost k: nat, junk: bv64) returns (port: int)
    requires addr.Valid() && k <= 32 && FreeFromHere(addr, MIN_IP_PORT + k)
    modifies addr, addr.portFreeMap
    ensures addr.Valid()
    ensures addr.wide || k < 32 ==> port == MIN_IP_PORT + k && FreeFromHere(addr, MIN_IP_PORT + k + 1)
    ensures !addr.wide && k == 32 ==> port == 1023
  {
    ghost var words, above := addr.portFreeMap[..], addr.above;
    assert addr.previous == 0 && addr.above == k;
    FreeAt(words, 0, k);
    assert PortOf(0, k) == MIN_IP_PORT + k && IsPort(PortOf(0, k));
    assert PortOf(0, k) in addr.Free();
    assert k < 32 ==> HasLow(words[0], k);
    port := addr.PortGet(junk);
    assert addr.previous == 0;
  }
}

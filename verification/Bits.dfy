/** Single bits of a 64-bit word, and the search for the lowest one that is set. */
module Bits {
  predicate Bit(w: bv64, b: bv64)
    requires b < 64
  {
    (w >> b) & 1 == 1
  }

  lemma SetBit(w: bv64, b: bv64, c: bv64)
    requires b < 64 && c < 64
    ensures Bit(w | (1 << b), c) <==> c == b || Bit(w, c)
  {
  }

  lemma ClearBit(w: bv64, b: bv64, c: bv64)
    requires b < 64 && c < 64
    ensures Bit(w & !(1 << b), c) <==> c != b && Bit(w, c)
  {
  }

  lemma BothBits(v: bv64, w: bv64, c: bv64)
    requires c < 64
    ensures Bit(v & w, c) <==> Bit(v, c) && Bit(w, c)
  {
  }

  lemma LowOnes(s: bv64, low: bv64)
    requires 0 < s < 64 && low == (1 << s) - 1
    ensures !low == !(0 as bv64) << s
  {
  }

  lemma ShiftedOnes(s: bv64, c: bv64)
    requires 0 < s < 64 && c < 64
    ensures Bit(!(0 as bv64) << s, c) <==> s <= c
  {
  }

  /** The mask that leaves the bits above b. */
  lemma BitAbove(b: bv64, c: bv64, low: bv64)
    requires b < 63 && c < 64 && low == (1 << (b + 1)) - 1
    ensures Bit(!low, c) <==> b < c
  {
    var s := b + 1;
    LowOnes(s, low);
    ShiftedOnes(s, c);
  }

  lemma ConstantBits(c: bv64)
    requires c < 64
    ensures Bit(!0, c) && !Bit(0, c)
  {
  }

  lemma ShiftedBit(w: bv64, c: bv64)
    requires c < 32
    ensures Bit(w >> 32, c) == Bit(w, c + 32)
  {
  }

  /** A number below 64 as a shift amount. */
  function Amount(n: nat): (b: bv64)
    requires n < 64
    ensures b < 64
  {
    if n == 0 then 0
    else
      var b := Amount(n - 1);
      if b < 63 then b + 1 else 0
  }

  lemma NextInt(b: bv64)
    requires b < 64 && b as int < 63
    ensures b < 63 && (b + 1) as int == b as int + 1
  {
  }

  lemma {:induction false} AmountIs(n: nat)
    requires n < 64
    ensures Amount(n) as int == n
  {
    if n == 0 {
    } else {
      AmountIs(n - 1);
      NextInt(Amount(n - 1));
    }
  }

  lemma AmountInjective(m: nat, n: nat)
    requires m < 64 && n < 64
    ensures Amount(m) == Amount(n) <==> m == n
  {
    AmountIs(m);
    AmountIs(n);
  }

  predicate IsSet(w: bv64, n: nat)
    requires n < 64
  {
    Bit(w, Amount(n))
  }

  lemma IsSetBit(w: bv64, n: nat, c: bv64)
    requires n < 64 && c == Amount(n)
    ensures IsSet(w, n) <==> Bit(w, c)
  {
  }

  lemma IsSetSet(w: bv64, m: nat, n: nat, v: bv64, b: bv64)
    requires m < 64 && n < 64 && b == Amount(m) && v == w | (1 << b)
    ensures IsSet(v, n) <==> n == m || IsSet(w, n)
  {
    var c := Amount(n);
    AmountInjective(m, n);
    IsSetBit(v, n, c);
    IsSetBit(w, n, c);
    SetBit(w, b, c);
  }

  lemma IsSetClear(w: bv64, m: nat, n: nat, v: bv64, b: bv64)
    requires m < 64 && n < 64 && b == Amount(m) && v == w & !(1 << b)
    ensures IsSet(v, n) <==> n != m && IsSet(w, n)
  {
    var c := Amount(n);
    AmountInjective(m, n);
    IsSetBit(v, n, c);
    IsSetBit(w, n, c);
    ClearBit(w, b, c);
  }

  lemma AmountBelow(n: nat, b: bv64)
    requires n < 64 && b == Amount(n) && b < 63
    ensures n < 63 && Amount(n + 1) == b + 1
  {
    AmountIs(n);
    IntBelow(b);
  }

  lemma IntBelow(b: bv64)
    requires b < 63
    ensures b as int < 63
  {
  }

  lemma NextShift(w: bv64, b: bv64)
    requires b < 64 && w >> b != 0 && !Bit(w, b)
    ensures b < 63 && w >> (b + 1) != 0
  {
  }

  lemma {:induction false} SomeBit(w: bv64, from: nat, b: bv64) returns (n: nat)
    requires from < 64 && b == Amount(from) && w >> b != 0
    ensures n < 64 && IsSet(w, n)
    decreases 64 - from
  {
    IsSetBit(w, from, b);
    if Bit(w, b) {
      n := from;
    } else {
      NextShift(w, b);
      AmountBelow(from, b);
      n := SomeBit(w, from + 1, b + 1);
    }
  }

  /** A word is zero exactly when no bit is set. */
  lemma ZeroWord(w: bv64)
    ensures w == 0 <==> forall n: nat :: n < 64 ==> !IsSet(w, n)
  {
    if w == 0 {
      forall n: nat | n < 64 ensures !IsSet(w, n) {
        ConstantBits(Amount(n));
      }
    } else {
      var n := SomeBit(w, 0, 0);
    }
  }

  /** The mask that leaves the bits above m. */
  lemma MaskAbove(m: nat, n: nat, v: bv64, b: bv64)
    requires m < 63 && n < 64 && b == Amount(m) && b < 63 && v == !((1 << (b + 1)) - 1)
    ensures IsSet(v, n) <==> m < n
  {
    var c := Amount(n);
    BitAbove(b, c, (1 << (b + 1)) - 1);
    IsSetBit(v, n, c);
    AmountOrder(m, n);
  }

  lemma {:induction false} AmountOrder(m: nat, n: nat)
    requires m < 64 && n < 64
    ensures Amount(m) < Amount(n) <==> m < n
  {
    var b, c := Amount(m), Amount(n);
    AmountIs(m);
    AmountIs(n);
    IntOrder(b, c);
  }

  lemma IntOrder(b: bv64, c: bv64)
    requires b < 64 && c < 64
    ensures b < c <==> b as int < c as int
  {
  }

  lemma AmountUp(n: nat, b: bv64, c: bv64)
    requires n < 32 && b == Amount(n) && c == Amount(n + 32)
    ensures b < 32 && c == b + 32
  {
    AmountIs(n);
    AmountIs(n + 32);
    IntUp(b, c);
  }

  lemma IntUp(b: bv64, c: bv64)
    requires b as int < 32 && c as int == b as int + 32
    ensures b < 32 && c == b + 32
  {
  }
}

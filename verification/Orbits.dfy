/** Walking round a circle of n places in steps of b: the walk visits n / gcd (n, b)
    places before it is back, and the places split into that many-step circles.
    Argument permutation and the working-set generator both rest on this. */
module Orbits {
  // ---- the greatest common divisor ----

  function Gcd(a: nat, b: nat): (g: nat)
    requires b > 0
    ensures g > 0
    decreases b
  {
    if a % b == 0 then b else Gcd(b, a % b)
  }

  /** Euclid's loop. */
  method ComputeGcd(a0: nat, b0: nat) returns (g: nat)
    requires b0 > 0
    ensures g == Gcd(a0, b0)
  {
    var a, b := a0, b0;
    var c := a % b;
    while c != 0
      invariant b > 0 && c == a % b && Gcd(a, b) == Gcd(a0, b0)
      decreases c
    {
      a := b;
      b := c;
      c := a % b;
    }
    return b;
  }

  lemma {:induction false} GcdDivides(a: nat, b: nat) returns (qa: nat, qb: nat)
    requires b > 0
    ensures qa * Gcd(a, b) == a && qb * Gcd(a, b) == b
    decreases b
  {
    var q, r, g := a / b, a % b, Gcd(a, b);
    if r == 0 {
      qa, qb := q, 1;
    } else {
      var qr;
      qb, qr := GcdDivides(b, r);
      qa := q * qb + qr;
      Distribute(q * qb, qr, g);
      Associate(q, qb, g);
    }
  }

  /** Bezout's identity. */
  lemma {:induction false} Bezout(a: nat, b: nat) returns (x: int, y: int)
    requires b > 0
    ensures x * a + y * b == Gcd(a, b)
    decreases b
  {
    var q, r := a / b, a % b;
    if r == 0 {
      x, y := 0, 1;
    } else {
      var u, v := Bezout(b, r);
      x, y := v, u - v * q;
      assert r == a - q * b;
      Distribute'(v, a, q * b);
      Associate(v, q, b);
      Distribute(u, -(v * q), b);
    }
  }

  /** Every common divisor divides the gcd, which therefore is the greatest. */
  lemma GcdIsGreatest(a: nat, b: nat, d: nat, m: nat, k: nat) returns (q: int)
    requires b > 0 && m * d == a && k * d == b
    ensures q * d == Gcd(a, b)
  {
    var x, y := Bezout(a, b);
    q := x * m + y * k;
    Distribute(x * m, y * k, d);
    Associate(x, m, d);
    Associate(y, k, d);
  }

  // ---- arithmetic the solver is told rather than asked ----

  lemma Distribute(a: int, b: int, c: int)
    ensures (a + b) * c == a * c + b * c
  {
  }

  lemma Distribute'(a: int, b: int, c: int)
    ensures a * (b - c) == a * b - a * c
  {
  }

  lemma Associate(a: int, b: int, c: int)
    ensures (a * b) * c == a * (b * c)
  {
  }

  lemma MulAtLeast(k: int, n: nat)
    requires k >= 1
    ensures k * n >= n
  {
    assert k * n == (k - 1) * n + n;
    assert (k - 1) * n >= 0;
  }

  lemma OnlyZeroMultiple(k: int, n: nat, d: int)
    requires n > 0 && k * n == d && d < n && d + n > 0
    ensures k == 0
  {
    if k >= 1 {
      MulAtLeast(k, n);
    } else if k <= -1 {
      MulAtLeast(-k, n);
    }
  }

  lemma ModUnique(u: int, q: int, n: nat, r: int)
    requires n > 0 && u == q * n + r && 0 <= r < n
    ensures u % n == r && u / n == q
  {
    Distribute(q, -(u / n), n);
    OnlyZeroMultiple(q - u / n, n, u % n - r);
  }

  lemma ModShift(u: int, k: int, n: nat)
    requires n > 0
    ensures (u + k * n) % n == u % n
  {
    Distribute(u / n, k, n);
    ModUnique(u + k * n, u / n + k, n, u % n);
  }

  // ---- the circle ----

  /** n places in `lanes` lanes of `len` each; b steps `stride` places down a lane,
      and `unit` inverts the stride modulo the length of the lane. */
  datatype Circle = Circle(n: nat, b: nat, lanes: nat, len: nat, stride: int, unit: int, wraps: int)
  {
    ghost predicate Valid() {
      && lanes > 0 && len > 0 && n == len * lanes
      && b == stride * lanes && unit * stride == 1 + wraps * len
    }

    function Lane(p: nat): (i: nat)
      requires Valid()
      ensures i < lanes
    {
      p % lanes
    }

    /** How many steps after place c (of the same lane) the walk comes to p. */
    function Age(c: nat, p: nat): (t: nat)
      requires Valid()
      ensures t < len
    {
      ((p / lanes - c / lanes) * unit) % len
    }
  }

  lemma PositiveFactor(q: nat, g: nat)
    requires q * g > 0
    ensures q > 0
  {
  }

  lemma CircleOf(n: nat, b: nat) returns (c: Circle)
    requires n > 0
    ensures c.Valid() && c.n == n && c.b == b && c.lanes == Gcd(b, n)
  {
    var g := Gcd(b, n);
    var qb, qn := GcdDivides(b, n);
    var x, y := Bezout(b, n);
    PositiveFactor(qn, g);
    // x * qb * g + y * qn * g == g
    Associate(x, qb, g);
    Associate(y, qn, g);
    Distribute(x * qb, y * qn, g);
    Distribute(x * qb + y * qn, -1, g);
    OnlyZeroMultiple(x * qb + y * qn - 1, g, 0);
    c := Circle(n, b, g, qn, qb, x, -y);
    Associate(-1, y, qn);
  }

  lemma AgeOfSelf(w: Circle, c: nat)
    requires w.Valid()
    ensures w.Age(c, c) == 0
  {
  }

  /** A step stays in its lane and makes the walk one step older. */
  lemma StepAges(w: Circle, c: nat, p: nat, q: nat, k: int)
    requires w.Valid() && q == p + w.b - k * w.n
    ensures w.Lane(q) == w.Lane(p)
    ensures w.Age(c, q) == if w.Age(c, p) + 1 == w.len then 0 else w.Age(c, p) + 1
  {
    // q / lanes == p / lanes + stride - k * len
    var m := p / w.lanes + w.stride - k * w.len;
    Associate(k, w.len, w.lanes);
    Distribute(p / w.lanes, w.stride - k * w.len, w.lanes);
    Distribute(w.stride, -(k * w.len), w.lanes);
    Associate(-1, k * w.len, w.lanes);
    assert q == m * w.lanes + p % w.lanes;
    ModUnique(q, m, w.lanes, p % w.lanes);
    // Age's product grows by 1, up to a multiple of len
    var u := p / w.lanes - c / w.lanes;
    var d := w.wraps - k * w.unit;
    StepProduct(w, u, k);
    ModShift(u * w.unit + 1, d, w.len);
    NextMod(u * w.unit, w.len);
  }

  lemma StepProduct(w: Circle, u: int, k: int)
    requires w.Valid()
    ensures (u + w.stride - k * w.len) * w.unit == u * w.unit + 1 + (w.wraps - k * w.unit) * w.len
  {
    Distribute(u, w.stride - k * w.len, w.unit);
    Distribute(w.stride, -(k * w.len), w.unit);
    Distribute(w.wraps, -(k * w.unit), w.len);
    assert w.stride * w.unit == 1 + w.wraps * w.len;
    assert (k * w.len) * w.unit == (k * w.unit) * w.len;
    assert (-(k * w.len)) * w.unit == -((k * w.len) * w.unit);
    assert (-(k * w.unit)) * w.len == -((k * w.unit) * w.len);
  }

  lemma NextMod(u: int, n: nat)
    requires n > 0
    ensures (u + 1) % n == if u % n + 1 == n then 0 else u % n + 1
  {
    if u % n + 1 == n {
      Distribute(u / n, 1, n);
      ModUnique(u + 1, u / n + 1, n, 0);
    } else {
      ModUnique(u + 1, u / n, n, u % n + 1);
    }
  }

  /** The unit can be cancelled: distances with like products are like. */
  lemma CancelUnit(w: Circle, u: int, v: int) returns (f: int)
    requires w.Valid() && (u * w.unit) % w.len == (v * w.unit) % w.len
    ensures u - v == f * w.len
  {
    var len, e := w.len, u - v;
    var k := (u * w.unit) / len - (v * w.unit) / len;
    Distribute(u, -v, w.unit);
    Distribute((u * w.unit) / len, -((v * w.unit) / len), len);
    assert e * w.unit == k * len;
    f := k * w.stride - e * w.wraps;
    CancelProduct(e, w.unit, w.stride, w.wraps, k, len);
  }

  lemma CancelProduct(e: int, unit: int, stride: int, wraps: int, k: int, len: int)
    requires unit * stride == 1 + wraps * len && e * unit == k * len
    ensures e == (k * stride - e * wraps) * len
  {
    Associate(e, unit, stride);
    Associate(k, stride, len);
    Associate(k, len, stride);
    Distribute'(e, 1, -(wraps * len));
    Associate(e, wraps, len);
    Distribute(k * stride, -(e * wraps), len);
  }

  /** Lane and age together identify a place: the walks cover the circle and do not
      meet. */
  lemma SamePlace(w: Circle, c: nat, p: nat, q: nat)
    requires w.Valid() && p < w.n && q < w.n
    requires w.Lane(p) == w.Lane(q) && w.Age(c, p) == w.Age(c, q)
    ensures p == q
  {
    var g := w.lanes;
    var f := CancelUnit(w, p / g - c / g, q / g - c / g);
    QuotientBelow(p, g, w.len);
    QuotientBelow(q, g, w.len);
    OnlyZeroMultiple(f, w.len, p / g - q / g);
  }

  lemma QuotientBelow(p: nat, g: nat, len: nat)
    requires g > 0 && p < len * g
    ensures 0 <= p / g < len
  {
    if p / g >= len {
      assert (p / g - len) * g >= 0;
      Distribute(p / g, -(len as int), g);
    }
  }
}

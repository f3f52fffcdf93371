// Rounding to the nearest double, ties to even (IEEE 754-2019, section 4.3.1), as the
// distance to every other double: for float64(int64) and for the sum of two doubles.
module Rounding {
  import opened Bytes
  import opened Numbers
  import opened Values
  import opened Conversions

  function Distance(a: int, b: int): nat { if a < b then b - a else a - b }

  predicate IsEven(d: Double) { d.frac % 2 == 0 }

  // ------------------------------------------------------------ between two grid points

  // q units, r of u to the next: the rounded one is no farther off than any point
  // outside the gap, and even when it is a tie.
  lemma RoundUpNearest(q: nat, r: nat, u: nat, m: nat, x: nat)
    requires u > 0 && r < u && m == q * u + r && (x <= q * u || x >= (q + 1) * u)
    ensures var p := RoundUp(q, r, u);
      && Distance(p * u, m) <= Distance(x, m)
      && (Distance(p * u, m) == Distance(x, m) && x != p * u ==> p % 2 == 0)
  {
    assert (q + 1) * u == q * u + u;
  }

  // The spacing of doubles around q * 2^k: none lies inside the gap.
  lemma Gap(e: Double, q: nat, k: nat)
    requires e.exp < 2047 && q >= TWO52
    ensures Magnitude(e) <= q * Pow2(k) || Magnitude(e) >= (q + 1) * Pow2(k)
  {
    hide Pow2;
    MulMono(TWO52, q, Pow2(k));
    MulMono(1, Pow2(k), TWO52);
    if e.exp > 0 {
      if e.exp > k { Multiple(TWO52 + e.frac, q, e.exp - 1, k); } else { Lower(TWO52 + e.frac, e.exp - 1, k); }
    }
  }

  lemma Multiple(c: nat, q: nat, j: nat, k: nat)
    requires j >= k
    ensures c * Pow2(j) <= q * Pow2(k) || c * Pow2(j) >= (q + 1) * Pow2(k)
  {
    hide Pow2;
    Pow2Add(j - k, k);
    MulAssoc(c, Pow2(j - k), Pow2(k));
    var a := c * Pow2(j - k);
    if a <= q { MulMono(a, q, Pow2(k)); } else { MulMono(q + 1, a, Pow2(k)); }
  }

  lemma Lower(c: nat, j: nat, k: nat)
    requires j < k && c < 2 * TWO52
    ensures c * Pow2(j) <= TWO52 * Pow2(k)
  {
    hide Pow2;
    Pow2Add(1, k - 1);
    Pow2Mono(j, k - 1);
    PowOne();
    var u, v := Pow2(j), Pow2(k - 1);
    MulMono(c, 2 * TWO52, u);
    MulMono(u, v, 2 * TWO52);
    MulAssoc(TWO52, 2, v);
  }

  lemma PowOne()
    ensures Pow2(1) == 2
  {}

  // ------------------------------------------------------------- a magnitude

  // No finite double is nearer to m than the rounded one, and at a tie it is even.
  ghost predicate IsNearest(d: Double, m: nat) {
    d.exp < 2047 && forall e: Double :: e.exp < 2047 ==>
      && Distance(Magnitude(d), m) <= Distance(Magnitude(e), m)
      && (Distance(Magnitude(d), m) == Distance(Magnitude(e), m) && Magnitude(e) != Magnitude(d) ==> IsEven(d))
  }

  lemma GridNearest(d: Double, q: nat, r: nat, k: nat, m: nat)
    requires d.exp < 2047 && q >= TWO52 && r < Pow2(k) && m == q * Pow2(k) + r
    requires Magnitude(d) == RoundUp(q, r, Pow2(k)) * Pow2(k) && d.frac % 2 == RoundUp(q, r, Pow2(k)) % 2
    ensures IsNearest(d, m)
  {
    hide Pow2, Magnitude, RoundUp;
    forall e: Double | e.exp < 2047
      ensures Distance(Magnitude(d), m) <= Distance(Magnitude(e), m)
      ensures Distance(Magnitude(d), m) == Distance(Magnitude(e), m) && Magnitude(e) != Magnitude(d) ==> IsEven(d)
    {
      Gap(e, q, k);
      RoundUpNearest(q, r, Pow2(k), m, Magnitude(e));
    }
  }

  // The double of a significand that may have carried to 2^53.
  lemma Carried(d: Double, q: nat, exp: nat)
    requires 0 < exp && TWO52 <= q <= TWO53 && d.exp < 2047
    requires d.exp == (if q == TWO53 then exp + 1 else exp) && d.frac == if q == TWO53 then 0 else q - TWO52
    ensures Magnitude(d) == q * Pow2(exp - 1) && d.frac % 2 == q % 2
  {
    hide Pow2;
    Pow2Add(1, exp - 1);
    PowOne();
    MulAssoc(TWO52, 2, Pow2(exp - 1));
  }

  // Below the point halfway past the greatest finite double a magnitude rounds to the
  // nearest one; from there on to infinity.
  lemma MagnitudeNearest(neg: bool, m: nat)
    ensures var d := RoundMagnitude(neg, m); d.neg == neg && if d.exp < 2047 then IsNearest(d, m) else d.frac == 0
  {
    hide Pow2, BitLen, Magnitude, RoundUp;
    var d := RoundMagnitude(neg, m);
    if m < TWO52 {
      SmallNearest(d, m);
    } else {
      var n := BitLen(m);
      NormalBits(m);
      BitLenBounds(m);
      var q := Significand53(m, n);
      if d.exp < 2047 {
        Carried(d, q, n - 52);
        if n == 53 {
          PowZero();
          RoundNothing(m);
          GridNearest(d, m, 0, 0, m);
        } else {
          TopBits(m, n);
          assert m == (m / Pow2(n - 53)) * Pow2(n - 53) + m % Pow2(n - 53);
          GridNearest(d, m / Pow2(n - 53), m % Pow2(n - 53), n - 53, m);
        }
      }
    }
  }

  lemma RoundNothing(m: nat)
    ensures RoundUp(m, 0, 1) == m
  {}

  lemma SmallNearest(d: Double, m: nat)
    requires d.exp == 0 && d.frac == m
    ensures IsNearest(d, m)
  {}

  // ... the point where infinity begins.
  lemma OverflowExact(neg: bool, m: nat, k: nat)
    requires k == 2044
    ensures RoundMagnitude(neg, m).exp == 2047 <==> m >= (2 * TWO53 - 1) * Pow2(k)
  {
    hide Pow2, BitLen;
    var n := BitLen(m);
    Pow2Consts();
    PowOne();
    Pow2Add(1, k);
    Pow2Add(53, k + 1);
    Pow2Mono(0, k);
    PowZero();
    if m > 0 { BitLenBounds(m); }
    if m < TWO52 {
      MulMono(1, Pow2(k), 2 * TWO53 - 1);
    } else {
      NormalBits(m);
      if n < k + 54 {
        Pow2Mono(n, k + 53);
        Pow2Add(53, k);
      } else if n > k + 54 {
        Pow2Mono(k + 54, n - 1);
      } else {
        TopBits(m, n);
        Halfway(m, Pow2(k));
      }
    }
  }

  // The top significand rounds up from its half on, being odd.
  lemma Halfway(m: nat, h: nat)
    requires h > 0 && TWO52 <= m / (2 * h) < TWO53
    ensures RoundUp(m / (2 * h), m % (2 * h), 2 * h) == TWO53 <==> m >= (2 * TWO53 - 1) * h
  {
    var u := 2 * h;
    var q, r := m / u, m % u;
    assert m == q * u + r;
    AtHalf(q, r, h, m);
  }

  lemma AtHalf(q: nat, r: nat, h: nat, m: nat)
    requires r < 2 * h && TWO52 <= q < TWO53 && m == q * (2 * h) + r
    ensures RoundUp(q, r, 2 * h) == TWO53 <==> m >= (2 * TWO53 - 1) * h
  {
    MulAssoc(q, 2, h);
    if q < TWO53 - 1 { MulMono(2 * q + 2, 2 * TWO53 - 2, h); }
  }

  // -------------------------------------------------------------- int64, and sums

  // float64(x) is the double nearest to x.
  lemma Float64Nearest(x: Int64)
    ensures IsNearest(Float64(x), Abs(x) * Unit()) && (Float64(x).neg <==> x < 0)
  {
    hide Pow2, BitLen, Magnitude, Significand, RoundUp, Shift, IsNearest;
    var mag, m := Abs(x), Abs(x) * Unit();
    if x == 0 {
      SmallNearest(Float64(0), 0);
    } else {
      var n := BitLen(mag);
      BitLenBelow(mag, 64);
      BitLenBounds(mag);
      var q := Significand(mag, n);
      Carried(Float64(x), q, n + 1022);
      if n <= 53 { ShortNearest(Float64(x), mag, n); } else { LongNearest(Float64(x), mag, n); }
    }
  }

  lemma ShortNearest(d: Double, mag: nat, n: nat)
    requires 0 < n <= 53 && Pow2(n - 1) <= mag < Pow2(n) && d.exp < 2047
    requires Magnitude(d) == Significand(mag, n) * Pow2(n + 1021) && d.frac % 2 == Significand(mag, n) % 2
    ensures IsNearest(d, mag * Unit())
  {
    hide Pow2, Magnitude, Significand, RoundUp, IsNearest;
    ShortSignificand(mag, n);
    PosRem(Pow2(n + 1021));
    GridNearest(d, Significand(mag, n), 0, n + 1021, mag * Unit());
  }

  lemma LongNearest(d: Double, mag: nat, n: nat)
    requires 53 < n <= 64 && Pow2(n - 1) <= mag < Pow2(n) && d.exp < 2047
    requires Magnitude(d) == Significand(mag, n) * Pow2(n + 1021) && d.frac % 2 == Significand(mag, n) % 2
    ensures IsNearest(d, mag * Unit())
  {
    hide Pow2, Magnitude, Significand, RoundUp, IsNearest;
    TopBits(mag, n);
    LongSignificand(mag, n);
    GridNearest(d, mag / Pow2(n - 53), (mag % Pow2(n - 53)) * Unit(), n + 1021, mag * Unit());
  }

  lemma PosRem(u: nat)
    requires u > 0
    ensures forall q: nat :: RoundUp(q, 0, u) == q
  {}

  lemma ShortSignificand(mag: nat, n: nat)
    requires 0 < n <= 53 && Pow2(n - 1) <= mag < Pow2(n)
    ensures Significand(mag, n) * Pow2(n + 1021) == mag * Unit()
  {
    hide Pow2;
    Pow2Add(53 - n, n + 1021);
    MulAssoc(mag, Pow2(53 - n), Pow2(n + 1021));
  }

  lemma LongSignificand(mag: nat, n: nat)
    requires 53 < n <= 64 && Pow2(n - 1) <= mag < Pow2(n)
    ensures var u := Pow2(n - 53);
      && Significand(mag, n) == RoundUp(mag / u, (mag % u) * Unit(), Pow2(n + 1021))
      && mag * Unit() == (mag / u) * Pow2(n + 1021) + (mag % u) * Unit()
      && (mag % u) * Unit() < Pow2(n + 1021)
  {
    hide Pow2;
    var u := Pow2(n - 53);
    Pow2Add(n - 53, EXP_BIAS);
    Scaled(mag / u, mag % u, u, Unit());
    assert mag == (mag / u) * u + mag % u;
    MulAssoc(mag / u, u, Unit());
    assert mag * Unit() == ((mag / u) * u) * Unit() + (mag % u) * Unit();
    MulMono(mag % u, u, Unit());
  }

  // Scaling changes no rounding.
  lemma Scaled(q: nat, r: nat, u: nat, c: nat)
    requires c > 0
    ensures RoundUp(q, r * c, u * c) == RoundUp(q, r, u)
  {
    if 2 * r < u { MulMono(2 * r, u, c); }
    if 2 * r > u { MulMono(u, 2 * r, c); }
    assert (2 * r) * c == 2 * (r * c);
  }

  // The sum of two finite doubles is the one nearest to the exact sum, with its sign;
  // it is infinite only past the greatest.
  lemma AddNearest(a: Double, b: Double)
    requires a.exp < 2047 && b.exp < 2047
    ensures var d, n := AddDouble(a, b), Units(a) + Units(b);
      && !IsNaN(d) && (n != 0 ==> (d.neg <==> n < 0))
      && (if d.exp < 2047 then IsNearest(d, Abs(n)) else d.frac == 0)
  {
    hide Magnitude, RoundMagnitude;
    var n := Units(a) + Units(b);
    if n == 0 { SmallNearest(AddDouble(a, b), 0); } else { MagnitudeNearest(n < 0, Abs(n)); }
  }
}

// Go's conversions between int64 and float64, and the values that equal a number:
// its twin in the other type and both signs of zero.
module Conversions {
  import opened Bytes
  import opened Numbers
  import opened Values

  // One in the scale of Magnitude.
  function Unit(): nat { Pow2(EXP_BIAS) }

  // ------------------------------------------------------------- int64 to double

  // q rounded by what was cut off below it: up past the half, ties to even.
  function RoundUp(q: nat, r: nat, unit: nat): nat {
    if 2 * r > unit || (2 * r == unit && q % 2 == 1) then q + 1 else q
  }

  // The top 53 bits of an n-bit magnitude.
  lemma TopBits(mag: nat, n: nat)
    requires n > 53 && Pow2(n - 1) <= mag < Pow2(n)
    ensures TWO52 <= mag / Pow2(n - 53) < TWO53
  {
    var k := n - 53;
    Pow2Consts();
    Pow2Add(52, k);
    Pow2Add(53, k);
    DivBounds(mag, Pow2(k), TWO52, TWO53);
  }

  lemma DivBounds(a: nat, b: nat, lo: nat, hi: nat)
    requires b > 0 && lo * b <= a < hi * b
    ensures lo <= a / b < hi
  {
    var q, r := a / b, a % b;
    assert a == q * b + r;
    if q < lo { MulMono(q + 1, lo, b); assert false; }
    if q >= hi { MulMono(hi, q, b); assert false; }
  }

  // The 53-bit significand of an n-bit magnitude, which rounding may carry to 2^53.
  function Significand(mag: nat, n: nat): (m: nat)
    requires 0 < n && Pow2(n - 1) <= mag < Pow2(n)
    ensures TWO52 <= m <= TWO53
  {
    hide Pow2;
    if n <= 53 then
      Pow2Consts();
      AlignMantissa(mag, n, 53);
      Shift(mag, 53 - n)
    else
      TopBits(mag, n);
      RoundUp(mag / Pow2(n - 53), mag % Pow2(n - 53), Pow2(n - 53))
  }

  function Assemble(neg: bool, n: nat, m: nat): (d: Double)
    requires 0 < n <= 64 && TWO52 <= m <= TWO53
    ensures d.exp < 2047
  {
    if m == TWO53 then Bits64(neg, n + 1023, 0) else Bits64(neg, n + 1022, m - TWO52)
  }

  // float64(x), rounding to nearest with ties to even (IEEE 754-2019, section 4.3.1).
  function Float64(x: Int64): (d: Double)
    ensures d.exp < 2047
  {
    hide Pow2, BitLen, Significand;
    if x == 0 then Bits64(false, 0, 0)
    else
      BitLenBelow(Abs(x), 64);
      BitLenBounds(Abs(x));
      Assemble(x < 0, BitLen(Abs(x)), Significand(Abs(x), BitLen(Abs(x))))
  }

  // A magnitude of more than 53 bits that some double equals ends in zeros.
  lemma RepresentableTail(x: Int64, n: nat, d: Double)
    requires x != 0 && d.exp < 2047 && Magnitude(d) == Shift(Abs(x), EXP_BIAS) && n == BitLen(Abs(x)) && 53 < n <= 64
    ensures var k := n - 53; Abs(x) % Pow2(k) == 0 && Shift(Abs(x) / Pow2(k), k) == Abs(x)
  {
    hide Pow2, BitLen, Magnitude, NumParts, IntKey, DoubleKey;
    var mag, k := Abs(x), n - 53;
    NonZero(mag, d);
    SameParts(x, n, d);
    Pow2Consts();
    Pow2Add(64 - n, k);
    Cancel(mag, Frexp(d).m, Pow2(k), Pow2(64 - n));
  }

  lemma NonZero(mag: nat, d: Double)
    requires mag > 0 && d.exp < 2047 && Magnitude(d) == Shift(mag, EXP_BIAS)
    ensures !IsZero(d)
  {
    if IsZero(d) { MulMono(1, mag, Pow2(EXP_BIAS)); }
  }

  lemma SameParts(x: Int64, n: nat, d: Double)
    requires x != 0 && d.exp < 2047 && !IsZero(d) && Magnitude(d) == Shift(Abs(x), EXP_BIAS)
    requires n == BitLen(Abs(x)) && n <= 64
    ensures Shift(Abs(x), 64 - n) == Frexp(d).m * TWO11
  {
    hide Pow2, BitLen, Magnitude, NumParts, IntKey, DoubleKey, Shift, Frexp;
    IntNumParts(x);
    DoubleNumParts(d);
    var p, q := IntNum(x), DoubleNum(d);
    PartsOrder(p.exp, p.mant, Shift(Abs(x), EXP_BIAS), q.exp, q.mant, Magnitude(d));
  }

  lemma Cancel(a: nat, m: nat, k: nat, s: nat)
    requires s > 0 && k > 0 && a * s == m * (s * k)
    ensures a == m * k && a % k == 0 && a / k == m
  {
    MulAssoc(m, k, s);
    if a < m * k { MulMono(a, m * k, s); }
    if a > m * k { MulMono(m * k, a, s); }
    DivExact(m, k);
  }

  lemma DivExact(m: nat, k: nat)
    requires k > 0
    ensures (m * k) % k == 0 && (m * k) / k == m
  {
    DivBounds(m * k, k, m, m + 1);
    assert (m * k) % k == m * k - ((m * k) / k) * k;
  }

  // The conversion is exact when any double equals x.
  lemma Float64Exact(x: Int64, d: Double)
    requires !IsNaN(d) && ExactDouble(d) == ExactInt(x)
    ensures ExactDouble(Float64(x)) == ExactInt(x)
  {
    hide Pow2, BitLen, Magnitude, Significand, Shift;
    if x != 0 {
      var mag, n := Abs(x), BitLen(Abs(x));
      BitLenBounds(mag);
      BitLenBelow(mag, 64);
      SignedUnit(x);
      AbsExact(x, d);
      SignificandExact(x, n, d);
      AssembleExact(x < 0, n, Significand(mag, n), Shift(mag, EXP_BIAS));
    } else {
      ZeroMagnitude();
    }
  }

  lemma ZeroMagnitude()
    ensures ExactDouble(Float64(0)) == ExactInt(0)
  {}

  lemma AbsExact(x: Int64, d: Double)
    requires !IsNaN(d) && ExactDouble(d) == ExactInt(x)
    ensures d.exp < 2047 && Magnitude(d) == Shift(Abs(x), EXP_BIAS)
  {
    hide Pow2, Magnitude;
    SignedUnit(x);
    PosUnit(x);
  }

  lemma PosUnit(x: Int64)
    ensures Shift(Abs(x), EXP_BIAS) >= 0
  {}

  lemma SignificandExact(x: Int64, n: nat, d: Double)
    requires x != 0 && d.exp < 2047 && Magnitude(d) == Shift(Abs(x), EXP_BIAS)
    requires 0 < n <= 64 && n == BitLen(Abs(x)) && Pow2(n - 1) <= Abs(x) < Pow2(n)
    ensures var m := Significand(Abs(x), n); m < TWO53 && m * Pow2(n + 1021) == Shift(Abs(x), EXP_BIAS)
  {
    hide Pow2, BitLen, Magnitude;
    var mag := Abs(x);
    Pow2Consts();
    if n <= 53 {
      AlignMantissa(mag, n, 53);
      Pow2Add(53 - n, n + 1021);
      MulAssoc(mag, Pow2(53 - n), Pow2(n + 1021));
    } else {
      var k := n - 53;
      RepresentableTail(x, n, d);
      TopBits(mag, n);
      Pow2Add(k, EXP_BIAS);
      MulAssoc(mag / Pow2(k), Pow2(k), Pow2(EXP_BIAS));
    }
  }

  lemma AssembleExact(neg: bool, n: nat, m: nat, value: nat)
    requires 0 < n <= 64 && TWO52 <= m < TWO53 && m * Pow2(n + 1021) == value
    ensures ExactDouble(Assemble(neg, n, m)) == Fin(if neg then 0 - value else value)
  {
    hide Pow2;
  }

  lemma SignedUnit(x: Int64)
    ensures x * Pow2(EXP_BIAS) == if x < 0 then 0 - Shift(Abs(x), EXP_BIAS) else Shift(Abs(x), EXP_BIAS)
  {}

  // ------------------------------------------------------------- double to int64

  // f == math.Trunc(f) && f >= math.MinInt64 && f < math.MaxInt64, and int64(f).
  datatype Conversion = Whole(x: Int64) | Inexact

  function ToInt64(d: Double): Conversion {
    if d.exp == 2047 then Inexact
    else
      var n := ExactDouble(d).n;
      if n % Unit() != 0 || n / Unit() < 0 - TWO63 || n / Unit() >= TWO63 then Inexact
      else Whole(n / Unit())
  }

  lemma ToInt64Exact(d: Double, x: Int64)
    requires !IsNaN(d)
    ensures ToInt64(d) == Whole(x) <==> ExactDouble(d) == ExactInt(x)
  {
    if d.exp < 2047 { UnitMultiple(ExactDouble(d).n, x, Unit()); }
  }

  lemma UnitMultiple(n: int, x: int, u: nat)
    requires u > 0
    ensures n == x * u <==> n % u == 0 && n / u == x
  {
    assert n == (n / u) * u + n % u;
    if n == x * u {
      if n / u < x { MulMono(n / u + 1, x, u); assert false; }
      if n / u > x { MulMono(x + 1, n / u, u); assert false; }
    }
  }

  // ------------------------------------------------------------ double addition

  // The double nearest to a magnitude in the scale of Magnitude, ties to even; past
  // the largest finite double it is infinity.
  function RoundMagnitude(neg: bool, m: nat): (d: Double)
  {
    hide Pow2;
    if m < TWO52 then Bits64(neg, 0, m)
    else
      var n := BitLen(m);
      NormalBits(m);
      BitLenBounds(m);
      var q := Significand53(m, n);
      if q == TWO53 then Finite(neg, n - 51, 0) else Finite(neg, n - 52, q - TWO52)
  }

  function Finite(neg: bool, exp: nat, frac: nat): (d: Double)
    requires frac < TWO52
  {
    if exp >= 2047 then Bits64(neg, 2047, 0) else Bits64(neg, exp, frac)
  }

  // The top 53 bits of a magnitude of at least that many, rounded.
  function Significand53(m: nat, n: nat): (q: nat)
    requires n >= 53 && Pow2(n - 1) <= m < Pow2(n)
    ensures TWO52 <= q <= TWO53
  {
    hide Pow2;
    if n == 53 then
      Pow2Consts();
      m
    else
      TopBits(m, n);
      RoundUp(m / Pow2(n - 53), m % Pow2(n - 53), Pow2(n - 53))
  }

  lemma NormalBits(m: nat)
    requires m >= TWO52
    ensures BitLen(m) >= 53
  {
    hide Pow2;
    Pow2Consts();
    BitLenBounds(m);
    if BitLen(m) <= 52 {
      Pow2Mono(BitLen(m), 52);
      assert false;
    }
  }

  // a + b (IEEE 754-2019, section 5.4.1): an exact zero sum is negative only when
  // both terms are.
  function AddDouble(a: Double, b: Double): Double {
    if IsNaN(a) || IsNaN(b) then Bits64(false, 2047, 1)
    else if IsInf(a) && IsInf(b) then if a.neg == b.neg then a else Bits64(false, 2047, 1)
    else if IsInf(a) then a
    else if IsInf(b) then b
    else
      var n := ExactDouble(a).n + ExactDouble(b).n;
      if n == 0 then Bits64(a.neg && b.neg, 0, 0) else RoundMagnitude(n < 0, Abs(n))
  }

  // Addition is exact whenever some double equals the sum, but for the sign of zero.
  lemma AddExact(a: Double, b: Double, d: Double)
    requires a.exp < 2047 && b.exp < 2047 && d.exp < 2047
    requires ExactDouble(a).n + ExactDouble(b).n == ExactDouble(d).n
    ensures ExactDouble(AddDouble(a, b)) == ExactDouble(d)
  {
    hide Magnitude, RoundMagnitude;
    var n := ExactDouble(d).n;
    if n == 0 { ZeroMagnitudes(); } else { RoundExact(n < 0, d); }
  }

  lemma ZeroMagnitudes()
    ensures Magnitude(Bits64(false, 0, 0)) == 0 == Magnitude(Bits64(true, 0, 0))
  {}

  lemma AddCommutes(a: Double, b: Double)
    ensures AddDouble(a, b) == AddDouble(b, a)
  {
    hide RoundMagnitude, ExactDouble;
  }

  // Rounding a magnitude that a double has gives it back.
  lemma RoundExact(neg: bool, d: Double)
    requires d.exp < 2047
    ensures RoundMagnitude(neg, Magnitude(d)) == Bits64(neg, d.exp, d.frac)
  {
    hide Pow2, BitLen, Significand53;
    if d.exp > 0 {
      var m, k := Magnitude(d), d.exp - 1;
      NormalLength(d);
      BitLenBounds(m);
      NormalSignificand(d);
    }
  }

  lemma PowZero()
    ensures Pow2(0) == 1
  {}

  lemma NormalLength(d: Double)
    requires 0 < d.exp < 2047
    ensures Magnitude(d) >= TWO52 && BitLen(Magnitude(d)) == d.exp + 52
  {
    hide Pow2, BitLen;
    var m, k := Magnitude(d), d.exp - 1;
    Pow2Consts();
    Pow2Add(52, k);
    Pow2Add(53, k);
    Pow2Mono(0, k);
    PowZero();
    MulMono(TWO52, TWO52 + d.frac, Pow2(k));
    MulMono(TWO52 + d.frac, TWO53, Pow2(k));
    MulMono(1, Pow2(k), TWO52);
    BitLenBounds(m);
    if BitLen(m) < d.exp + 52 { Pow2Mono(BitLen(m), d.exp + 51); }
    if BitLen(m) > d.exp + 52 { Pow2Mono(d.exp + 52, BitLen(m) - 1); }
  }

  lemma NormalSignificand(d: Double)
    requires 0 < d.exp < 2047 && Pow2(d.exp + 51) <= Magnitude(d) < Pow2(d.exp + 52)
    ensures Significand53(Magnitude(d), d.exp + 52) == TWO52 + d.frac
  {
    hide Pow2;
    if d.exp == 1 {
      PowZero();
    } else {
      DivExact(TWO52 + d.frac, Pow2(d.exp - 1));
    }
  }

  // -------------------------------------------------------------- equal numbers

  // A double is determined by its exact value, but for the sign of zero.
  lemma DoubleUnique(a: Double, b: Double)
    requires !IsNaN(a) && !IsNaN(b) && ExactDouble(a) == ExactDouble(b)
    ensures a == b || (IsZero(a) && IsZero(b))
  {
    if a.exp < 2047 && b.exp < 2047 {
      MagnitudeOrder(a, b);
      if a.neg != b.neg {
        MagnitudeOrder(a, Bits64(false, 0, 0));
        assert Magnitude(Bits64(false, 0, 0)) == 0;
      }
      SamePosition(a.exp, a.frac, b.exp, b.frac);
    }
  }

  lemma SamePosition(e: nat, f: nat, g: nat, h: nat)
    requires f < TWO52 && h < TWO52
    ensures e * TWO52 + f == g * TWO52 + h ==> e == g && f == h
  {
    if e < g { MulMono(e + 1, g, TWO52); }
    if g < e { MulMono(g + 1, e, TWO52); }
  }

  const PLUS_ZERO: Double := Bits64(false, 0, 0)
  const MINUS_ZERO: Double := Bits64(true, 0, 0)

  // The values equalityProbes looks for: the operand, its twin in the other type
  // when it has one, and the zeros.
  function Alternatives(v: Value): seq<Value> {
    match v
    case Integer(x) =>
      [v] + (if ToInt64(Float64(x)) == Whole(x) then [DoubleV(Float64(x))] else [])
          + (if x == 0 then [DoubleV(MINUS_ZERO)] else [])
    case DoubleV(d) =>
      [v] + (if ToInt64(d).Whole? then [Integer(ToInt64(d).x)] else [])
          + (if IsZero(d) then [DoubleV(PLUS_ZERO), DoubleV(MINUS_ZERO)] else [])
    case _ => [v]
  }

  // A number equals the operand exactly when it is one of the alternatives.
  lemma NumberTwins(w: Value, v: Value)
    requires TypeOrder(v) == 3
    ensures TypeOrder(w) == 3 && Compare(w, v) == 0 <==> w in Alternatives(v)
  {
    hide Float64, ToInt64;
    if v.Integer? { IntTwins(w, v.x); } else { DoubleTwins(w, v.d); }
  }

  lemma ZeroExact(d: Double)
    requires !IsNaN(d)
    ensures ExactDouble(d) == ExactInt(0) <==> IsZero(d)
  {
    if d.exp < 2047 {
      MagnitudeOrder(d, PLUS_ZERO);
      assert Magnitude(PLUS_ZERO) == 0;
    }
  }

  lemma ZeroIs(d: Double)
    ensures IsZero(d) <==> d == PLUS_ZERO || d == MINUS_ZERO
  {}

  lemma EqualNumbers(w: Value, v: Value)
    requires TypeOrder(w) == 3 && TypeOrder(v) == 3
    ensures Compare(w, v) == 0 <==> ExactOf(NumberOf(w)) == ExactOf(NumberOf(v))
  {
    hide ExactInt, ExactDouble;
    CompareNumbersExact(NumberOf(w), NumberOf(v));
  }

  lemma IntTwins(w: Value, x: Int64)
    ensures TypeOrder(w) == 3 && Compare(w, Integer(x)) == 0 <==> w in Alternatives(Integer(x))
  {
    hide Float64, ToInt64, ExactDouble, Compare, IsZero;
    if TypeOrder(w) == 3 {
      EqualNumbers(w, Integer(x));
      if w.Integer? {
        EqualNumbers(w, Integer(x));
        SameInt(w.x, x);
      } else {
        TwinOfInt(x, w.d);
      }
    }
  }

  lemma SameInt(x: Int64, y: Int64)
    ensures ExactInt(x) == ExactInt(y) <==> x == y
  {
    if x < y { MulMono(x, y, Pow2(EXP_BIAS)); }
    if y < x { MulMono(y, x, Pow2(EXP_BIAS)); }
  }

  lemma TwinOfInt(x: Int64, d: Double)
    requires !IsNaN(d)
    ensures ExactDouble(d) == ExactInt(x) <==>
      (ToInt64(Float64(x)) == Whole(x) && d == Float64(x)) || (x == 0 && d == MINUS_ZERO)
  {
    hide ToInt64, ExactDouble;
    ToInt64Exact(Float64(x), x);
    ZeroExact(d);
    ZeroIs(d);
    if ExactDouble(d) == ExactInt(x) {
      Float64Exact(x, d);
      DoubleUnique(d, Float64(x));
      if IsZero(d) { SameInt(x, 0); }
    }
  }

  lemma DoubleTwins(w: Value, d: Double)
    requires !IsNaN(d)
    ensures TypeOrder(w) == 3 && Compare(w, DoubleV(d)) == 0 <==> w in Alternatives(DoubleV(d))
  {
    hide Float64, ToInt64, ExactDouble, Compare;
    if TypeOrder(w) == 3 {
      EqualNumbers(w, DoubleV(d));
      if w.Integer? {
        ToInt64Exact(d, w.x);
      } else {
        ZeroIs(d);
        ZeroIs(w.d);
        if ExactDouble(w.d) == ExactDouble(d) { DoubleUnique(w.d, d); }
        ZeroExact(d);
        ZeroExact(w.d);
      }
    }
  }
}

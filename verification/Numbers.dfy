// The unified number order: int64 and binary64 values compared exactly, and the
// class + biased exponent + aligned mantissa bytes that encode that order.
module Numbers {
  import opened Bytes

  const TWO11: nat := 0x800
  const TWO16: nat := 0x1_0000
  const TWO52: nat := 0x10_0000_0000_0000
  const TWO53: nat := 0x20_0000_0000_0000
  const TWO63: nat := 0x8000_0000_0000_0000
  const TWO64: nat := 0x1_0000_0000_0000_0000

  const EXP_BIAS: nat := 1074

  const NUM_NEG_INF: byte := 0x00
  const NUM_NEG: byte := 0x01
  const NUM_ZERO: byte := 0x02
  const NUM_POS: byte := 0x03
  const NUM_POS_INF: byte := 0x04

  type Int64 = x: int | -0x8000_0000_0000_0000 <= x < 0x8000_0000_0000_0000

  // A binary64 datum (IEEE 754-2019, section 3.4): sign, biased exponent and
  // trailing significand.
  datatype Bits64 = Bits64(neg: bool, exp: nat, frac: nat)
  type Double = d: Bits64 | d.exp < 2048 && d.frac < TWO52 witness Bits64(false, 0, 0)

  predicate IsNaN(d: Double) { d.exp == 2047 && d.frac != 0 }
  predicate IsInf(d: Double) { d.exp == 2047 && d.frac == 0 }
  predicate IsZero(d: Double) { d.exp == 0 && d.frac == 0 }

  function Abs(x: int): nat { if x < 0 then 0 - x else x }

  function Pow2(n: nat): nat
    ensures Pow2(n) > 0
  {
    if n == 0 then 1 else 2 * Pow2(n - 1)
  }

  // |d| * 2^1074, which is an integer for every finite d.
  function Magnitude(d: Double): nat
    requires d.exp < 2047
  {
    if d.exp == 0 then d.frac else (TWO52 + d.frac) * Pow2(d.exp - 1)
  }

  // ... and with the sign of d.
  function Units(d: Double): int
    requires d.exp < 2047
  {
    if d.neg then 0 - Magnitude(d) else Magnitude(d)
  }

  // Exact mathematical values, scaled by 2^1074, with both infinities.
  datatype Exact = NegInf | Fin(n: int) | PosInf

  function CompareExact(a: Exact, b: Exact): int {
    match (a, b)
    case (Fin(m), Fin(n)) => CmpInt(m, n)
    case _ => CmpInt(Rank(a), Rank(b))
  }

  function Rank(a: Exact): int {
    match a case NegInf => -1 case Fin(_) => 0 case PosInf => 1
  }

  function ExactInt(x: Int64): Exact { Fin(x * Pow2(EXP_BIAS)) }

  function ExactDouble(d: Double): Exact
    requires !IsNaN(d)
  {
    if IsInf(d) then (if d.neg then NegInf else PosInf)
    else Fin(Units(d))
  }

  // -------------------------------------------------- Go's numeric primitives

  // bits.Len64.
  function BitLen(n: nat): nat {
    if n == 0 then 0 else 1 + BitLen(n / 2)
  }

  function Shift(x: nat, k: nat): nat { x * Pow2(k) }

  // x << k on uint64.
  function Shl64(x: nat, k: nat): nat { Shift(x, k) % TWO64 }

  // math.Frexp of |d|, with the fraction in [0.5, 1) scaled to the 53-bit
  // integer that math.Ldexp(frac, 53) yields: |d| == m * 2^(e - 53).
  datatype Fr = Fr(m: nat, e: int)

  function Frexp(d: Double): Fr
    requires d.exp < 2047 && !IsZero(d)
  {
    if d.exp > 0 then Fr(TWO52 + d.frac, d.exp - 1022)
    else
      BitLenBelow(d.frac, 52);
      Fr(Shift(d.frac, 53 - BitLen(d.frac)), BitLen(d.frac) - 1074)
  }

  // math.Float64bits.
  function Float64bits(d: Double): (b: nat)
    ensures b < TWO64
  {
    (if d.neg then TWO63 else 0) + d.exp * TWO52 + d.frac
  }

  function NormalizeZero(d: Double): Double {
    if IsZero(d) then Bits64(false, 0, 0) else d
  }

  // cmpFloat: both IEEE comparisons with a NaN are false, which reads as equal.
  function CmpFloat(a: Double, b: Double): int {
    if IsNaN(a) || IsNaN(b) then 0
    else CompareExact(ExactDouble(NormalizeZero(a)), ExactDouble(NormalizeZero(b)))
  }

  // ---------------------------------------------------------- the encodings

  function Payload(exp: nat, mant: nat): seq<byte> {
    BigEndian(exp, 2) + BigEndian(mant, 8)
  }

  // Negative payloads are complemented, so larger magnitudes sort first.
  function Signed(neg: bool, payload: seq<byte>): seq<byte> {
    if neg then [NUM_NEG] + Complement(payload) else [NUM_POS] + payload
  }

  function NumParts(neg: bool, exp: int, mant: nat): seq<byte> {
    Signed(neg, Payload((exp + EXP_BIAS) % TWO16, mant))
  }

  function IntKey(x: Int64): seq<byte> {
    if x == 0 then [NUM_ZERO]
    else
      var mag := if x < 0 then (TWO64 - x % TWO64) % TWO64 else x % TWO64;
      BitLenBelow(mag, 64);
      NumParts(x < 0, BitLen(mag) - 1, Shl64(mag, 64 - BitLen(mag)))
  }

  function DoubleKey(d: Double): seq<byte>
    requires !IsNaN(d)
  {
    if IsZero(d) then [NUM_ZERO]
    else if IsInf(d) then [if d.neg then NUM_NEG_INF else NUM_POS_INF]
    else var fr := Frexp(d); NumParts(d.neg, fr.e - 1, Shl64(fr.m, 11))
  }

  // The fixed 8-byte form used inside geopoints.
  function OrderedBits(d: Double): (b: nat)
    ensures b < TWO64
  {
    var b := Float64bits(NormalizeZero(d));
    if b >= TWO63 then TWO64 - 1 - b else b + TWO63
  }

  function OrderedDoubleKey(d: Double): seq<byte> { BigEndian(OrderedBits(d), 8) }

  // ------------------------------------------------------- powers of two

  lemma {:induction false} Pow2Add(a: nat, b: nat)
    ensures Pow2(a + b) == Pow2(a) * Pow2(b)
    decreases a
  {
    if a != 0 {
      Pow2Add(a - 1, b);
      assert Pow2(a + b) == 2 * Pow2((a - 1) + b);
      assert 2 * (Pow2(a - 1) * Pow2(b)) == (2 * Pow2(a - 1)) * Pow2(b);
    }
  }

  lemma {:induction false} Pow2Mono(a: nat, b: nat)
    requires a <= b
    ensures Pow2(a) <= Pow2(b)
    decreases b
  {
    if a < b { Pow2Mono(a, b - 1); }
  }

  lemma Pow2Consts()
    ensures Pow2(11) == TWO11 && Pow2(52) == TWO52 && Pow2(53) == TWO53
    ensures Pow2(63) == TWO63 && Pow2(64) == TWO64
  {
    assert Pow2(11) == TWO11;
    assert Pow2(13) == 4 * Pow2(11);
    Pow2Add(13, 13);
    Pow2Add(26, 26);
    Pow2Add(52, 11);
  }

  lemma {:induction false} BitLenBounds(n: nat)
    requires n > 0
    ensures BitLen(n) > 0 && Pow2(BitLen(n) - 1) <= n < Pow2(BitLen(n))
  {
    if n > 1 { BitLenBounds(n / 2); }
  }

  lemma BitLenBelow(n: nat, k: nat)
    requires k in {52, 64} && n < (if k == 52 then TWO52 else TWO64)
    ensures BitLen(n) <= k
  {
    if n > 0 && BitLen(n) > k {
      Pow2Consts();
      BitLenAtLeast(n, k);
    }
  }

  lemma BitLenAtLeast(n: nat, k: nat)
    requires n > 0 && BitLen(n) > k
    ensures n >= Pow2(k)
  {
    BitLenBounds(n);
    Pow2Mono(k, BitLen(n) - 1);
  }

  lemma MulMono(a: int, b: int, c: nat)
    requires a <= b
    ensures a * c <= b * c
    ensures a < b && c > 0 ==> a * c < b * c
  {}

  // --------------------------------------------- the parts of a magnitude

  // mant/2^63 * 2^exp == n, with the top bit of the 64-bit mantissa set.
  ghost predicate Parts(exp: nat, mant: nat, n: nat) {
    TWO63 <= mant < TWO64 && mant * Pow2(exp) == n * TWO63
  }

  // Exponent first, mantissa second, is the order of the magnitudes.
  lemma PartsOrder(e1: nat, m1: nat, n1: nat, e2: nat, m2: nat, n2: nat)
    requires Parts(e1, m1, n1) && Parts(e2, m2, n2)
    ensures CmpInt(n1, n2) == Then(CmpInt(e1, e2), CmpInt(m1, m2))
  {
    if e1 < e2 {
      PartsBelow(e1, m1, n1, e2, m2, n2);
    } else if e2 < e1 {
      PartsBelow(e2, m2, n2, e1, m1, n1);
    } else if m1 < m2 {
      MulMono(m1, m2, Pow2(e1));
    } else if m2 < m1 {
      MulMono(m2, m1, Pow2(e1));
    }
  }

  lemma PartsBelow(e1: nat, m1: nat, n1: nat, e2: nat, m2: nat, n2: nat)
    requires Parts(e1, m1, n1) && Parts(e2, m2, n2) && e1 < e2
    ensures n1 < n2
  {
    Pow2Mono(e1 + 1, e2);
    MulMono(m1, TWO64, Pow2(e1));
    assert TWO64 * Pow2(e1) == TWO63 * Pow2(e1 + 1);
    MulMono(Pow2(e1 + 1), Pow2(e2), TWO63);
    MulMono(TWO63, m2, Pow2(e2));
  }

  lemma PayloadCoded(e1: nat, m1: nat, e2: nat, m2: nat)
    requires e1 < TWO16 && e2 < TWO16 && m1 < TWO64 && m2 < TWO64
    ensures Coded(Payload(e1, m1), Payload(e2, m2), Then(CmpInt(e1, e2), CmpInt(m1, m2)))
  {
    Widths();
    BigEndianCoded(e1, e2, 2);
    BigEndianCoded(m1, m2, 8);
    CodedThen(BigEndian(e1, 2), BigEndian(e2, 2), CmpInt(e1, e2), BigEndian(m1, 8), BigEndian(m2, 8), CmpInt(m1, m2));
  }

  lemma NumPartsCoded(neg: bool, e1: nat, m1: nat, e2: nat, m2: nat, c: int)
    requires e1 < TWO16 && e2 < TWO16 && m1 < TWO64 && m2 < TWO64
    requires c == Then(CmpInt(e1, e2), CmpInt(m1, m2))
    ensures Coded(NumParts(neg, e1 - EXP_BIAS, m1), NumParts(neg, e2 - EXP_BIAS, m2), if neg then -c else c)
  {
    PayloadCoded(e1, m1, e2, m2);
    Rebias(neg, e1, m1);
    Rebias(neg, e2, m2);
    SignedCoded(neg, Payload(e1, m1), Payload(e2, m2), c);
  }

  lemma Rebias(neg: bool, e: nat, m: nat)
    requires e < TWO16
    ensures NumParts(neg, e - EXP_BIAS, m) == Signed(neg, Payload(e, m))
  {
    assert (e - EXP_BIAS + EXP_BIAS) % TWO16 == e;
  }

  lemma SignedCoded(neg: bool, p1: seq<byte>, p2: seq<byte>, c: int)
    requires Coded(p1, p2, c)
    ensures Coded(Signed(neg, p1), Signed(neg, p2), if neg then -c else c)
  {
    if neg {
      CodedComplement(p1, p2, c);
      CodedThen([NUM_NEG], [NUM_NEG], 0, Complement(p1), Complement(p2), -c);
    } else {
      CodedThen([NUM_POS], [NUM_POS], 0, p1, p2, c);
    }
  }

  // ------------------------------------------------- ints and doubles as parts

  // A number with its 64-bit mantissa: what appendNumParts is handed.
  datatype Num = Num(neg: bool, exp: nat, mant: nat)

  function IntNum(x: Int64): Num
    requires x != 0
  {
    var mag := Abs(x);
    BitLenBelow(mag, 64);
    BitLenBounds(mag);
    Num(x < 0, BitLen(mag) - 1 + EXP_BIAS, Shift(mag, 64 - BitLen(mag)))
  }

  lemma IntNumParts(x: Int64)
    requires x != 0
    ensures var p := IntNum(x);
      && p.exp < TWO16 && Parts(p.exp, p.mant, Shift(Abs(x), EXP_BIAS))
      && IntKey(x) == NumParts(x < 0, p.exp - EXP_BIAS, p.mant)
  {
    var mag := Abs(x);
    BitLenBelow(mag, 64);
    AlignedParts(mag, EXP_BIAS);
    TwosComplement(x);
  }

  // uint64(x), negated when x is negative, is |x|, including the least int64.
  lemma TwosComplement(x: Int64)
    requires x != 0
    ensures (if x < 0 then (TWO64 - x % TWO64) % TWO64 else x % TWO64) == Abs(x)
  {
    if x < 0 { assert x % TWO64 == x + TWO64; }
  }

  lemma AlignedParts(mag: nat, k: nat)
    requires 0 < mag && BitLen(mag) <= 64
    ensures BitLen(mag) > 0
    ensures Shl64(mag, 64 - BitLen(mag)) == Shift(mag, 64 - BitLen(mag))
    ensures Parts(BitLen(mag) - 1 + k, Shift(mag, 64 - BitLen(mag)), Shift(mag, k))
  {
    var n := BitLen(mag);
    BitLenBounds(mag);
    Pow2Consts();
    AlignMantissa(mag, n, 64);
    ScaledParts(mag, n, k);
  }

  lemma ScaledParts(mag: nat, n: nat, k: nat)
    requires 0 < n <= 64
    ensures Shift(mag, 64 - n) * Pow2(n - 1 + k) == Shift(mag, k) * TWO63
  {
    Pow2Consts();
    Pow2Add(64 - n, n - 1);
    Pow2Add(n - 1, k);
    MulSwap(mag, Pow2(64 - n), Pow2(n - 1), Pow2(k));
  }

  lemma MulSwap(a: nat, b: nat, c: nat, d: nat)
    ensures (a * b) * (c * d) == (a * d) * (b * c)
  {}

  // Shifting an n-bit number left by w - n sets bit w-1 and nothing above.
  lemma AlignMantissa(m: nat, n: nat, w: nat)
    requires 0 < n <= w && Pow2(n - 1) <= m < Pow2(n)
    ensures Pow2(w - 1) <= Shift(m, w - n) < Pow2(w)
  {
    MulMono(Pow2(n - 1), m, Pow2(w - n));
    MulMono(m, Pow2(n), Pow2(w - n));
    Pow2Add(n - 1, w - n);
    Pow2Add(n, w - n);
  }

  function DoubleNum(d: Double): Num
    requires d.exp < 2047 && !IsZero(d)
  {
    FrexpRange(d);
    var fr := Frexp(d);
    Num(d.neg, fr.e - 1 + EXP_BIAS, fr.m * TWO11)
  }

  // The contract of math.Frexp: 53 significant bits, and exactness.
  lemma FrexpRange(d: Double)
    requires d.exp < 2047 && !IsZero(d)
    ensures TWO52 <= Frexp(d).m < TWO53
    ensures 1 <= Frexp(d).e + EXP_BIAS <= 1024 + EXP_BIAS
    ensures Frexp(d).m * Pow2(Frexp(d).e + EXP_BIAS) == Magnitude(d) * TWO53
  {
    Pow2Consts();
    if d.exp > 0 {
      Pow2Add(53, d.exp - 1);
      MulAssoc(TWO52 + d.frac, Pow2(d.exp - 1), TWO53);
    } else {
      var n := BitLen(d.frac);
      BitLenBelow(d.frac, 52);
      BitLenBounds(d.frac);
      AlignMantissa(d.frac, n, 53);
      Pow2Add(53 - n, n);
      MulAssoc(d.frac, Pow2(53 - n), Pow2(n));
    }
  }

  lemma MulAssoc(a: nat, b: nat, c: nat)
    ensures (a * b) * c == a * (b * c) == a * (c * b)
  {}

  lemma Rescale(m: nat, h: nat, n: nat)
    requires m * (2 * h) == n * TWO53
    ensures (m * TWO11) * h == n * TWO63
  {
    assert (m * TWO11) * h == 1024 * (m * (2 * h));
  }

  lemma DoubleNumParts(d: Double)
    requires d.exp < 2047 && !IsZero(d)
    ensures var p := DoubleNum(d);
      && p.exp < TWO16 && Parts(p.exp, p.mant, Magnitude(d))
      && DoubleKey(d) == NumParts(d.neg, p.exp - EXP_BIAS, p.mant)
  {
    FrexpRange(d);
    Pow2Consts();
    var fr := Frexp(d);
    assert Shl64(fr.m, 11) == fr.m * TWO11;
    Rescale(fr.m, Pow2(fr.e + EXP_BIAS - 1), Magnitude(d));
  }

  // ---------------------------------------------------- the number isomorphism

  datatype Number = Int(x: Int64) | Dbl(d: Double)

  predicate Comparable(a: Number) { a.Dbl? ==> !IsNaN(a.d) }

  function ExactOf(a: Number): Exact
    requires Comparable(a)
  {
    match a case Int(x) => ExactInt(x) case Dbl(d) => ExactDouble(d)
  }

  function NumberKey(a: Number): seq<byte>
    requires Comparable(a)
  {
    match a case Int(x) => IntKey(x) case Dbl(d) => DoubleKey(d)
  }

  // compareNumbers: like types directly, mixed types through exact big floats.
  function CompareNumbers(a: Number, b: Number): int
    requires Comparable(a) && Comparable(b)
  {
    match (a, b)
    case (Int(x), Int(y)) => CmpInt(x, y)
    case (Dbl(x), Dbl(y)) => CmpFloat(x, y)
    case (Int(x), Dbl(y)) => CompareExact(ExactInt(x), ExactDouble(NormalizeZero(y)))
    case (Dbl(x), Int(y)) => CompareExact(ExactDouble(NormalizeZero(x)), ExactInt(y))
  }

  lemma CompareNumbersExact(a: Number, b: Number)
    requires Comparable(a) && Comparable(b)
    ensures CompareNumbers(a, b) == CompareExact(ExactOf(a), ExactOf(b))
  {
    if a.Int? && b.Int? {
      if a.x < b.x { MulMono(a.x, b.x, Pow2(EXP_BIAS)); }
      if b.x < a.x { MulMono(b.x, a.x, Pow2(EXP_BIAS)); }
    }
  }

  // The class byte, from the exact value alone.
  function Class(e: Exact): byte {
    match e
    case NegInf => NUM_NEG_INF
    case PosInf => NUM_POS_INF
    case Fin(n) => if n < 0 then NUM_NEG else if n == 0 then NUM_ZERO else NUM_POS
  }

  function NumOf(a: Number): Num
    requires Comparable(a) && Class(ExactOf(a)) in {NUM_NEG, NUM_POS}
  {
    match a
    case Int(x) => IntNum(x)
    case Dbl(d) => DoubleNum(d)
  }

  // Every key is its class byte, plus the parts of its magnitude when nonzero
  // and finite. The type of the number is gone.
  lemma KeyShape(a: Number)
    requires Comparable(a)
    ensures var e := ExactOf(a);
      if Class(e) in {NUM_NEG, NUM_POS} then
        && Parts(NumOf(a).exp, NumOf(a).mant, Abs(e.n))
        && NumOf(a).exp < TWO16
        && NumberKey(a) == NumParts(e.n < 0, NumOf(a).exp - EXP_BIAS, NumOf(a).mant)
      else NumberKey(a) == [Class(e)]
  {
    match a
    case Int(x) =>
      if x != 0 {
        IntNumParts(x);
        AbsScale(x, Pow2(EXP_BIAS));
      }
    case Dbl(d) =>
      if !IsInf(d) && !IsZero(d) { DoubleNumParts(d); MagnitudePositive(d); }
  }

  lemma AbsScale(x: int, k: nat)
    requires k > 0
    ensures Abs(x * k) == Abs(x) * k
    ensures x * k < 0 <==> x < 0
    ensures x * k == 0 <==> x == 0
  {
    if x < 0 { MulMono(x, -1, k); assert (0 - x) * k == 0 - x * k; }
    if x > 0 { MulMono(1, x, k); }
  }

  lemma MagnitudePositive(d: Double)
    requires d.exp < 2047 && !IsZero(d)
    ensures Magnitude(d) > 0
  {
    if d.exp > 0 { MulMono(1, TWO52 + d.frac, Pow2(d.exp - 1)); }
  }

  // Exact unified numbers: for every int64 and every non-NaN double the bytes
  // order by exact mathematical value, and equal numbers of different types get
  // identical bytes.
  lemma NumberKeyCoded(a: Number, b: Number)
    requires Comparable(a) && Comparable(b)
    ensures Coded(NumberKey(a), NumberKey(b), CompareNumbers(a, b))
  {
    hide CompareNumbers, NumberKey, CompareExact, Coded, ExactOf, NumOf, NumParts;
    CompareNumbersExact(a, b);
    KeyShape(a);
    KeyShape(b);
    if Class(ExactOf(a)) != Class(ExactOf(b)) {
      ClassFirst(a);
      ClassFirst(b);
      ClassesDecide(ExactOf(a), ExactOf(b), NumberKey(a), NumberKey(b));
    } else if Class(ExactOf(a)) in {NUM_NEG, NUM_POS} {
      SameClass(a, b);
    } else {
      SingleCoded(ExactOf(a), ExactOf(b));
    }
  }

  lemma ClassFirst(a: Number)
    requires Comparable(a)
    ensures NumberKey(a) != [] && NumberKey(a)[0] == Class(ExactOf(a))
  {
    hide NumberKey, ExactOf, NumOf;
    KeyShape(a);
  }

  lemma ClassesDecide(ea: Exact, eb: Exact, ka: seq<byte>, kb: seq<byte>)
    requires Class(ea) != Class(eb) && ka != [] && kb != [] && ka[0] == Class(ea) && kb[0] == Class(eb)
    ensures Coded(ka, kb, CompareExact(ea, eb))
  {}

  lemma SingleCoded(ea: Exact, eb: Exact)
    requires Class(ea) == Class(eb) && Class(ea) !in {NUM_NEG, NUM_POS}
    ensures Coded([Class(ea)], [Class(eb)], CompareExact(ea, eb))
  {}

  lemma SameClass(a: Number, b: Number)
    requires Comparable(a) && Comparable(b) && Class(ExactOf(a)) == Class(ExactOf(b)) && Class(ExactOf(a)) in {NUM_NEG, NUM_POS}
    ensures Coded(NumberKey(a), NumberKey(b), CompareExact(ExactOf(a), ExactOf(b)))
  {
    hide NumberKey, Coded, ExactOf, NumOf, NumParts;
    var ea, eb := ExactOf(a), ExactOf(b);
    KeyShape(a);
    KeyShape(b);
    var pa, pb := NumOf(a), NumOf(b);
    PartsOrder(pa.exp, pa.mant, Abs(ea.n), pb.exp, pb.mant, Abs(eb.n));
    NumPartsCoded(ea.n < 0, pa.exp, pa.mant, pb.exp, pb.mant, CmpInt(Abs(ea.n), Abs(eb.n)));
  }

  // -------------------------------------------------------- ordered doubles

  lemma MagnitudeOrder(a: Double, b: Double)
    requires a.exp < 2047 && b.exp < 2047
    ensures CmpInt(Magnitude(a), Magnitude(b)) == CmpInt(a.exp * TWO52 + a.frac, b.exp * TWO52 + b.frac)
  {
    if a.exp < b.exp {
      MagnitudeBelow(a, b);
    } else if b.exp < a.exp {
      MagnitudeBelow(b, a);
    } else if a.exp > 0 {
      if a.frac < b.frac { MulMono(TWO52 + a.frac, TWO52 + b.frac, Pow2(a.exp - 1)); }
      if b.frac < a.frac { MulMono(TWO52 + b.frac, TWO52 + a.frac, Pow2(a.exp - 1)); }
    }
  }

  lemma MagnitudeBelow(a: Double, b: Double)
    requires a.exp < b.exp < 2047
    ensures Magnitude(a) < Magnitude(b)
  {
    MulMono(TWO52, TWO52 + b.frac, Pow2(b.exp - 1));
    Pow2Mono(a.exp, b.exp - 1);
    MulMono(Pow2(a.exp), Pow2(b.exp - 1), TWO52);
    if a.exp > 0 {
      MulMono(TWO52 + a.frac, TWO53, Pow2(a.exp - 1));
      assert TWO53 * Pow2(a.exp - 1) == TWO52 * Pow2(a.exp);
    }
  }

  lemma OrderedDoubleCoded(a: Double, b: Double)
    requires !IsNaN(a) && !IsNaN(b)
    ensures Coded(OrderedDoubleKey(a), OrderedDoubleKey(b), CmpFloat(a, b))
  {
    Widths();
    BigEndianCoded(OrderedBits(a), OrderedBits(b), 8);
    OrderedBitsOrder(NormalizeZero(a), NormalizeZero(b));
  }

  lemma OrderedBitsOrder(a: Double, b: Double)
    requires !IsNaN(a) && !IsNaN(b)
    requires IsZero(a) ==> !a.neg
    requires IsZero(b) ==> !b.neg
    ensures CmpInt(OrderedBits(a), OrderedBits(b)) == CompareExact(ExactDouble(a), ExactDouble(b))
  {
    if !IsInf(a) && !IsZero(a) { MagnitudePositive(a); }
    if !IsInf(b) && !IsZero(b) { MagnitudePositive(b); }
    if !IsInf(a) && !IsInf(b) { MagnitudeOrder(a, b); }
  }
}

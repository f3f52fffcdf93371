// Byte strings, their memcmp order, and the composition law that every sort key
// in the system rests on: a pair of prefix-free encodings decides a comparison
// whatever follows them.
module Bytes {

  type byte = b: int | 0 <= b < 256

  // A Go string is a byte string.
  type Str = seq<byte>

  const SLASH: byte := 0x2F

  function CmpInt(a: int, b: int): int {
    if a < b then -1 else if a > b then 1 else 0
  }

  // bytes.Compare: the unsigned lexicographic order, a proper prefix first.
  function CompareBytes(a: seq<byte>, b: seq<byte>): int
    decreases a
  {
    if a == [] || b == [] then CmpInt(|a|, |b|)
    else if a[0] != b[0] then CmpInt(a[0], b[0])
    else CompareBytes(a[1..], b[1..])
  }

  predicate Less(a: seq<byte>, b: seq<byte>) {
    CompareBytes(a, b) < 0
  }

  // The sign of the first position where a and b differ, 0 when one of them is
  // a prefix of the other.
  function FirstDiff(a: seq<byte>, b: seq<byte>): int
    decreases a
  {
    if a == [] || b == [] then 0
    else if a[0] != b[0] then CmpInt(a[0], b[0])
    else FirstDiff(a[1..], b[1..])
  }

  // ka and kb encode two things that compare as c: equal things have equal
  // encodings, and unequal things have encodings neither of which is a prefix of
  // the other and whose first difference has the sign of the comparison.
  ghost predicate Coded(ka: seq<byte>, kb: seq<byte>, c: int) {
    if c == 0 then ka == kb else FirstDiff(ka, kb) == c
  }

  // The lexicographic combination of two comparisons.
  function Then(c: int, d: int): int {
    if c != 0 then c else d
  }

  function Complement(s: seq<byte>): (r: seq<byte>)
    ensures |r| == |s|
    ensures forall i :: 0 <= i < |s| ==> r[i] == 255 - s[i]
  {
    seq(|s|, i requires 0 <= i < |s| => 255 - s[i])
  }

  function BigEndian(n: nat, width: nat): (r: seq<byte>)
    ensures |r| == width
    decreases width, n
  {
    if width == 0 then [] else BigEndian(n / 256, width - 1) + [n % 256]
  }

  function Pow256(k: nat): nat {
    if k == 0 then 1 else 256 * Pow256(k - 1)
  }

  // ---------------------------------------------------------------- the order

  lemma {:induction false} CompareRefl(a: seq<byte>)
    ensures CompareBytes(a, a) == 0
    decreases a
  {
    if a != [] { CompareRefl(a[1..]); }
  }

  lemma {:induction false} CompareZero(a: seq<byte>, b: seq<byte>)
    ensures CompareBytes(a, b) == 0 <==> a == b
    decreases a
  {
    CompareRefl(a);
    if a != [] && b != [] {
      CompareZero(a[1..], b[1..]);
      assert a == [a[0]] + a[1..] && b == [b[0]] + b[1..];
    }
  }

  lemma {:induction false} CompareSwap(a: seq<byte>, b: seq<byte>)
    ensures CompareBytes(b, a) == -CompareBytes(a, b)
    ensures CompareBytes(a, b) in {-1, 0, 1}
    decreases a
  {
    if a != [] && b != [] && a[0] == b[0] { CompareSwap(a[1..], b[1..]); }
  }

  lemma {:induction false} CompareTrans(a: seq<byte>, b: seq<byte>, c: seq<byte>)
    requires CompareBytes(a, b) <= 0 && CompareBytes(b, c) <= 0
    ensures CompareBytes(a, c) <= 0
    ensures CompareBytes(a, b) < 0 || CompareBytes(b, c) < 0 ==> CompareBytes(a, c) < 0
    decreases a
  {
    if a != [] && b != [] && c != [] && a[0] == b[0] == c[0] {
      CompareTrans(a[1..], b[1..], c[1..]);
    }
  }

  // ------------------------------------------------- composition of encodings

  lemma {:induction false} FirstDiffConcat(a: seq<byte>, b: seq<byte>, x: seq<byte>, y: seq<byte>)
    requires FirstDiff(a, b) != 0
    ensures FirstDiff(a + x, b + y) == FirstDiff(a, b)
    ensures CompareBytes(a + x, b + y) == FirstDiff(a, b)
    decreases a
  {
    assert (a + x)[0] == a[0] && (b + y)[0] == b[0];
    if a[0] == b[0] {
      FirstDiffConcat(a[1..], b[1..], x, y);
      assert (a + x)[1..] == a[1..] + x && (b + y)[1..] == b[1..] + y;
    }
  }

  lemma {:induction false} SamePrefix(p: seq<byte>, x: seq<byte>, y: seq<byte>)
    ensures FirstDiff(p + x, p + y) == FirstDiff(x, y)
    ensures CompareBytes(p + x, p + y) == CompareBytes(x, y)
    decreases p
  {
    if p == [] {
      assert p + x == x && p + y == y;
    } else {
      SamePrefix(p[1..], x, y);
      assert (p + x)[1..] == p[1..] + x && (p + y)[1..] == p[1..] + y;
      assert (p + x)[0] == p[0] && (p + y)[0] == p[0];
    }
  }

  // Encodings compose: what follows only matters when the heads tie.
  lemma CodedThen(ka: seq<byte>, kb: seq<byte>, c: int, xa: seq<byte>, xb: seq<byte>, d: int)
    requires Coded(ka, kb, c) && Coded(xa, xb, d)
    ensures Coded(ka + xa, kb + xb, Then(c, d))
  {
    if c != 0 { FirstDiffConcat(ka, kb, xa, xb); } else { SamePrefix(ka, xa, xb); }
  }

  // Any two continuations at all: an unequal head decides, an equal head defers.
  lemma CodedDecides(ka: seq<byte>, kb: seq<byte>, c: int, x: seq<byte>, y: seq<byte>)
    requires Coded(ka, kb, c)
    ensures CompareBytes(ka + x, kb + y) == Then(c, CompareBytes(x, y))
  {
    if c != 0 { FirstDiffConcat(ka, kb, x, y); } else { SamePrefix(ka, x, y); }
  }

  lemma CodedCompare(ka: seq<byte>, kb: seq<byte>, c: int)
    requires Coded(ka, kb, c)
    ensures CompareBytes(ka, kb) == c
    ensures c != 0 ==> !(ka <= kb) && !(kb <= ka)
  {
    assert ka + [] == ka && kb + [] == kb;
    CodedDecides(ka, kb, c, [], []);
    if c != 0 { DiffNoPrefix(ka, kb); }
  }

  lemma {:induction false} DiffNoPrefix(a: seq<byte>, b: seq<byte>)
    requires FirstDiff(a, b) != 0
    ensures !(a <= b) && !(b <= a)
    decreases a
  {
    if a[0] == b[0] { DiffNoPrefix(a[1..], b[1..]); }
  }

  lemma {:induction false} ComplementFlips(a: seq<byte>, b: seq<byte>)
    ensures FirstDiff(Complement(a), Complement(b)) == -FirstDiff(a, b)
    decreases a
  {
    if a != [] && b != [] {
      assert Complement(a)[1..] == Complement(a[1..]);
      assert Complement(b)[1..] == Complement(b[1..]);
      if a[0] == b[0] { ComplementFlips(a[1..], b[1..]); }
    }
  }

  // Complementing reverses the order, even across field boundaries.
  lemma CodedComplement(ka: seq<byte>, kb: seq<byte>, c: int)
    requires Coded(ka, kb, c)
    ensures Coded(Complement(ka), Complement(kb), -c)
  {
    ComplementFlips(ka, kb);
  }

  lemma ComplementInvolutive(s: seq<byte>)
    ensures Complement(Complement(s)) == s
  {
    var cs := Complement(s);
    forall i | 0 <= i < |s| ensures Complement(cs)[i] == s[i] { assert cs[i] == 255 - s[i]; }
  }

  lemma Assoc(a: seq<byte>, b: seq<byte>, c: seq<byte>)
    ensures (a + b) + c == a + (b + c)
  {}

  // ------------------------------------------------------------ fixed-width ints

  lemma {:induction false} BigEndianCoded(a: nat, b: nat, width: nat)
    requires a < Pow256(width) && b < Pow256(width)
    ensures Coded(BigEndian(a, width), BigEndian(b, width), CmpInt(a, b))
    decreases width
  {
    if width != 0 {
      BigEndianCoded(a / 256, b / 256, width - 1);
      CodedThen(BigEndian(a / 256, width - 1), BigEndian(b / 256, width - 1), CmpInt(a / 256, b / 256),
                [a % 256], [b % 256], CmpInt(a % 256, b % 256));
    }
  }

  lemma Widths()
    ensures Pow256(2) == 0x1_0000
    ensures Pow256(4) == 0x1_0000_0000
    ensures Pow256(8) == 0x1_0000_0000_0000_0000
  {
    assert Pow256(4) == 256 * (256 * Pow256(2));
    assert Pow256(6) == 256 * (256 * Pow256(4));
    assert Pow256(8) == 256 * (256 * Pow256(6));
  }
}

// The algebra of planned byte intervals: how bounds combine, what a position key
// bounds, and how concatenated components compare.
module Spans {
  import opened Bytes
  import opened Values
  import opened SortKeys
  import opened FieldPaths
  import opened Queries
  import opened Indexes
  import opened Plans

  // ------------------------------------------------------------ interval algebra

  predicate AtLeast(k: seq<byte>, b: Bound) { b.Some? ==> CompareBytes(b.value, k) <= 0 }

  predicate Below(k: seq<byte>, b: Bound) { b.Some? ==> Less(k, b.value) }

  // The scan's WHERE clause.
  predicate InSpan(k: seq<byte>, s: Span) { AtLeast(k, s.lo) && Below(k, s.hi) }

  lemma InMax(k: seq<byte>, a: Bound, b: Bound)
    ensures AtLeast(k, MaxBound(a, b)) <==> AtLeast(k, a) && AtLeast(k, b)
  {
    if a.Some? && b.Some? {
      CompareSwap(a.value, b.value);
      if CompareBytes(b.value, a.value) > 0 {
        if AtLeast(k, b) { CompareTrans(a.value, b.value, k); }
      } else {
        if AtLeast(k, a) { CompareTrans(b.value, a.value, k); }
      }
    }
  }

  lemma InMin(k: seq<byte>, a: Bound, b: Bound)
    ensures Below(k, MinBound(a, b)) <==> Below(k, a) && Below(k, b)
  {
    if a.Some? && b.Some? {
      CompareSwap(a.value, b.value);
      if CompareBytes(b.value, a.value) < 0 {
        if Below(k, b) { CompareTrans(k, b.value, a.value); }
      } else {
        if Below(k, a) { CompareTrans(k, a.value, b.value); }
      }
    }
  }

  lemma EmptySpan(k: seq<byte>, lo: seq<byte>, hi: seq<byte>)
    requires CompareBytes(lo, hi) >= 0
    ensures !InSpan(k, Span(Some(lo), Some(hi)))
  {
    CompareSwap(lo, hi);
    CompareSwap(k, hi);
    if CompareBytes(lo, k) <= 0 { CompareTrans(hi, lo, k); }
  }

  lemma InClip(k: seq<byte>, s: Span)
    ensures InSpan(k, Clip(s)) <==> InSpan(k, s)
  {
    if s.lo.Some? && s.hi.Some? && CompareBytes(s.lo.value, s.hi.value) >= 0 {
      EmptySpan(k, s.lo.value, s.hi.value);
      CompareRefl(s.lo.value);
      EmptySpan(k, s.lo.value, s.lo.value);
    }
  }

  // Everything that starts with p, and nothing else.
  lemma PrefixSpan(k: seq<byte>, p: seq<byte>)
    ensures InSpan(k, Span(Some(p), PrefixEnd(p))) <==> p <= k
  {
    PrefixEndExact(p, k);
    CompareSwap(p, k);
    if p <= k {
      assert k == p + k[|p|..] && p + [] == p;
      SamePrefix(p, [], k[|p|..]);
    }
  }

  // A position key K = p + c against k = p + t + u, where t and c are codes of
  // the same fields: each of the four ways a bound is used reads off the sign.
  lemma PositionExact(p: seq<byte>, c: seq<byte>, t: seq<byte>, u: seq<byte>, sign: int)
    requires p + c != [] && (p + c)[0] != 0xFF
    requires Coded(t, c, sign) && sign in {-1, 0, 1}
    ensures var k, b := p + (t + u), Some(p + c);
      && (AtLeast(k, b) <==> sign >= 0)
      && (AtLeast(k, EndOf(b)) <==> sign > 0)
      && (Below(k, b) <==> sign < 0)
      && (Below(k, EndOf(b)) <==> sign <= 0)
  {
    var k, b := p + (t + u), p + c;
    PrefixEndExists(b);
    PrefixEndExact(b, k);
    SamePrefix(p, c, t + u);
    CompareSwap(b, k);
    CompareSwap(PrefixEnd(b).value, k);
    PositionSign(c, t, u, sign);
    PrefixCancel(p, c, t + u);
  }

  lemma PrefixCancel(p: seq<byte>, c: seq<byte>, x: seq<byte>)
    ensures p + c <= p + x <==> c <= x
  {
    if p + c <= p + x { assert (p + x)[|p|..] == x && (p + c)[|p|..] == c; }
  }

  lemma PositionSign(c: seq<byte>, t: seq<byte>, u: seq<byte>, sign: int)
    requires Coded(t, c, sign) && sign in {-1, 0, 1}
    ensures sign == 0 <==> c <= t + u
    ensures sign != 0 ==> CompareBytes(c, t + u) == -sign
    ensures sign == 0 ==> CompareBytes(c, t + u) <= 0
  {
    assert c + [] == c;
    CodedDecides(t, c, sign, u, []);
    CompareSwap(t + u, c);
    if sign == 0 {
      SamePrefix(c, [], u);
    } else {
      FirstDiffConcat(t, c, u, []);
      DiffNoPrefix(t + u, c);
    }
  }

  // -------------------------------------------------------- lists of components

  function Flip(reversed: bool, c: int): int { if reversed then -c else c }

  // Comparing concatenated components, with any pattern of directions, is
  // comparing the tuples term by term.
  lemma {:induction false} TermsCoded(order: seq<OrderSpec>, a: seq<Value>, b: seq<Value>,
                                      ca: seq<seq<byte>>, cb: seq<seq<byte>>, reversed: bool, n: nat)
    requires n <= |order| && n <= |a| && n <= |b| && n <= |ca| && n <= |cb|
    requires forall i :: 0 <= i < n ==> Coded(ca[i], cb[i], Flip(reversed, DirCompare(order[i].desc, a[i], b[i])))
    ensures Coded(Concat(ca[..n]), Concat(cb[..n]), Flip(reversed, CompareTerms(order, a, b, n)))
    decreases n
  {
    hide Coded, Concat, Compare;
    if n == 0 {
      NoTerms(ca, cb);
    } else {
      TermsCoded(order, a, b, ca, cb, reversed, n - 1);
      ConcatSnoc(ca[..n - 1], ca[n - 1]);
      ConcatSnoc(cb[..n - 1], cb[n - 1]);
      assert ca[..n] == ca[..n - 1] + [ca[n - 1]] && cb[..n] == cb[..n - 1] + [cb[n - 1]];
      var c, d := CompareTerms(order, a, b, n - 1), DirCompare(order[n - 1].desc, a[n - 1], b[n - 1]);
      CodedThen(Concat(ca[..n - 1]), Concat(cb[..n - 1]), Flip(reversed, c), ca[n - 1], cb[n - 1], Flip(reversed, d));
      assert CompareTerms(order, a, b, n) == Then(c, d);
    }
  }

  lemma NoTerms(ca: seq<seq<byte>>, cb: seq<seq<byte>>)
    ensures Coded(Concat(ca[..0]), Concat(cb[..0]), 0)
  {}

  // Two lists of pairwise equal-or-diverging components are equal, or their
  // concatenations diverge.
  lemma {:induction false} ListsDecide(a: seq<seq<byte>>, b: seq<seq<byte>>)
    requires |a| == |b| && forall i :: 0 <= i < |a| ==> a[i] == b[i] || FirstDiff(a[i], b[i]) != 0
    ensures a == b || FirstDiff(Concat(a), Concat(b)) != 0
  {
    if a != [] {
      ListsDecide(a[1..], b[1..]);
      if a[0] == b[0] {
        SamePrefix(a[0], Concat(a[1..]), Concat(b[1..]));
        assert a == [a[0]] + a[1..] && b == [b[0]] + b[1..];
      } else {
        FirstDiffConcat(a[0], b[0], Concat(a[1..]), Concat(b[1..]));
      }
    }
  }
}

/** Facts about products, quotients and finite sets that the solver needs spelled out. */
module Arith {

  function Max(a: int, b: int): (m: int)
    ensures m >= a && m >= b && (m == a || m == b)
  {
    if a > b then a else b
  }

  function Min(a: int, b: int): (m: int)
    ensures m <= a && m <= b && (m == a || m == b)
  {
    if a < b then a else b
  }

  lemma MulLt(a: int, b: int, d: int)
    requires d > 0
    ensures a * d < b * d <==> a < b
  {
  }

  lemma DivBetween(x: int, d: int, lo: int, hi: int)
    requires d > 0
    requires lo * d <= x <= hi * d
    ensures lo <= x / d <= hi
  {
    var q := x / d;
    assert q * d <= x < q * d + d;
    assert (q + 1) * d == q * d + d && (hi + 1) * d == hi * d + d;
    MulLt(lo, q + 1, d);
    MulLt(q, hi + 1, d);
  }

  lemma MulBounded(a: int, b: int, c: int)
    requires 0 <= a && 0 <= b <= c
    ensures 0 <= a * b <= a * c
  {
  }

  lemma MulSub(a: int, b: int, c: int)
    ensures a * (b - c) == a * b - a * c
  {
  }

  lemma DivMod(n: nat, d: int)
    requires d >= 1
    ensures n == d * (n / d) + n % d && 0 <= n % d < d
  {
  }

  lemma DivUnique(n: int, inc: int, q: int, r: int)
    requires inc >= 1 && 0 <= r < inc && n == q * inc + r
    ensures n / inc == q && n % inc == r
  {
    MulLt(n / inc, q + 1, inc);
    MulLt(q, n / inc + 1, inc);
    assert (n / inc) * inc <= n < (n / inc) * inc + inc;
  }

  /** A set of integers in an interval is no larger than it, and as large only if it is all
      of it. */
  lemma {:induction false} IntervalSize(s: set<int>, lo: int, hi: int)
    requires lo <= hi
    requires forall n :: n in s ==> lo <= n < hi
    ensures |s| <= hi - lo
    ensures |s| == hi - lo <==> forall n :: lo <= n < hi ==> n in s
    decreases hi - lo
  {
    if lo == hi {
      assert s == {};
    } else {
      var rest := s - {lo};
      IntervalSize(rest, lo + 1, hi);
      if lo in s {
        assert |s| == |rest| + 1;
        if |s| == hi - lo {
          forall n | lo <= n < hi
            ensures n in s
          {
            assert n != lo ==> n in rest;
          }
        }
      } else {
        assert rest == s;
      }
    }
  }
}

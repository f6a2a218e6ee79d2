/** Numeric conversions the pipeline inherits from C++ and OpenCV, stated on
    unbounded reals and integers:
    - static_cast<int>/static_cast<ushort> of a float truncates toward zero;
    - cvRound rounds to the nearest integer, ties to even;
    - saturate_cast<uchar> rounds, then clamps to [0, 255]. */
module Rounding {

  /** Truncation toward zero, as a C++ cast from float to an integer type. */
  function Trunc(x: real): (r: int)
    ensures 0.0 <= x ==> r as real <= x < r as real + 1.0
    ensures x < 0.0 ==> r as real - 1.0 < x <= r as real
  {
    if x >= 0.0 then x.Floor else -((-x).Floor)
  }

  /** cvRound: the nearest integer to x, the even one when x lies halfway. */
  function RoundHalfEven(x: real): (r: int)
    ensures x - 0.5 <= r as real <= x + 0.5
    ensures (r as real == x - 0.5 || r as real == x + 0.5) ==> r % 2 == 0
  {
    var f := x.Floor;
    var frac := x - f as real;
    if frac < 0.5 then f
    else if frac > 0.5 then f + 1
    else if f % 2 == 0 then f
    else f + 1
  }

  /** Clamp an integer into the range of an unsigned 8-bit value. */
  function SaturateU8(n: int): (r: int)
    ensures 0 <= r <= 255
    ensures 0 <= n <= 255 ==> r == n
    ensures n < 0 ==> r == 0
    ensures n > 255 ==> r == 255
  {
    if n < 0 then 0 else if n > 255 then 255 else n
  }

  /** saturate_cast<uchar> applied to a floating-point value. */
  function SaturateCastU8(x: real): (r: int)
    ensures 0 <= r <= 255
  {
    SaturateU8(RoundHalfEven(x))
  }

  /** Rounding to nearest never reverses the order of two values. */
  lemma RoundHalfEvenMonotone(x: real, y: real)
    requires x <= y
    ensures RoundHalfEven(x) <= RoundHalfEven(y)
  {
    if x.Floor == y.Floor {
      var f := x.Floor;
      assert x - f as real <= y - f as real;
    } else {
      assert x.Floor < y.Floor;
    }
  }

  /** Two values less than one apart round to integers at most one apart,
      and clamping into [0, 255] keeps them at most one apart. */
  lemma SaturateCastWithinOne(x: real, y: real)
    requires x - 1.0 < y < x + 1.0
    ensures -1 <= SaturateCastU8(x) - SaturateCastU8(y) <= 1
  {
    var a, b := RoundHalfEven(x), RoundHalfEven(y);
    assert -1 <= a - b <= 1;
  }

  /** Multiplying by a positive factor keeps the order of two reals. */
  lemma ScaleOrder(a: real, b: real, c: real)
    requires c > 0.0
    ensures a <= b <==> a * c <= b * c
  {
  }

  /** Dividing by a positive divisor keeps the order of two reals. */
  lemma QuotientOrder(n1: real, n2: real, d: real)
    requires d > 0.0
    ensures n1 <= n2 <==> n1 / d <= n2 / d
  {
    ScaleOrder(n1 / d, n2 / d, d);
  }

  /** Equal numerators over equal divisors give equal quotients. */
  lemma SameQuotient(n1: real, d1: real, n2: real, d2: real)
    requires n1 == n2 && d1 == d2 && d1 != 0.0
    ensures n1 / d1 == n2 / d2
  {
  }

  /** A positive real divided by itself is one. */
  lemma SelfQuotient(d: real)
    requires d > 0.0
    ensures d / d == 1.0
  {
    var q := d / d;
    assert q * d == d;
    assert (q - 1.0) * d == 0.0;
  }

  /** Sum of a sequence of reals, accumulated from the front as the source's
      `for` loops do. */
  function Sum(s: seq<real>): real
  {
    if s == [] then 0.0 else Sum(s[..|s| - 1]) + s[|s| - 1]
  }

  lemma SumAppend(s: seq<real>, x: real)
    ensures Sum(s + [x]) == Sum(s) + x
  {
    assert (s + [x])[..|s|] == s;
  }

  lemma {:induction false} SumConcat(s: seq<real>, t: seq<real>)
    ensures Sum(s + t) == Sum(s) + Sum(t)
    decreases |t|
  {
    if t != [] {
      var init := t[..|t| - 1];
      SumConcat(s, init);
      assert (s + t)[..|s + t| - 1] == s + init;
    } else {
      assert s + t == s;
    }
  }

  /** A sum of values that all lie strictly between lo and hi lies strictly
      between |s|·lo and |s|·hi. */
  lemma {:induction false} SumBounds(s: seq<real>, lo: real, hi: real)
    requires |s| > 0
    requires forall i :: 0 <= i < |s| ==> lo < s[i] < hi
    ensures |s| as real * lo < Sum(s) < |s| as real * hi
  {
    if |s| > 1 {
      var init := s[..|s| - 1];
      SumBounds(init, lo, hi);
      assert |s| as real * lo == |init| as real * lo + lo;
      assert |s| as real * hi == |init| as real * hi + hi;
    }
  }

  /** The mean of values that all lie strictly between lo and hi lies
      strictly between lo and hi. */
  lemma MeanBetween(s: seq<real>, lo: real, hi: real)
    requires |s| > 0
    requires forall i :: 0 <= i < |s| ==> lo < s[i] < hi
    ensures lo < Sum(s) / |s| as real < hi
  {
    SumBounds(s, lo, hi);
    var n := |s| as real;
    var m := Sum(s) / n;
    assert m * n == Sum(s);
    ScaleOrder(m, lo, n);
    ScaleOrder(hi, m, n);
  }
}

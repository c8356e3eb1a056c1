/**
 * The real-number facts the similarity engine rests on: the laws of the
 * square root and the base-10 logarithm that the C++ code takes from <cmath>,
 * and finite sums over sets of terms, which is what the accumulating loops
 * over a std::map compute.
 */
module Numerics {

  /** `sqrt` behaves as std::sqrt on the non-negative reals: a non-negative root. */
  ghost predicate IsSqrt(sqrt: real -> real) {
    forall x :: 0.0 <= x ==> 0.0 <= sqrt(x) && sqrt(x) * sqrt(x) == x
  }

  /** `log10` behaves as std::log10 at and above 1: zero at 1, positive above it. */
  ghost predicate IsLog10(log10: real -> real) {
    log10(1.0) == 0.0 && forall x :: 1.0 < x ==> 0.0 < log10(x)
  }

  /** The root of a non-negative number is zero exactly when the number is. */
  lemma SqrtZero(sqrt: real -> real, x: real)
    requires IsSqrt(sqrt) && 0.0 <= x
    ensures 0.0 <= sqrt(x)
    ensures sqrt(x) == 0.0 <==> x == 0.0
  {
    var r := sqrt(x);
    assert r * r == x;
    if x == 0.0 {
      ProductZero(r, r);
    }
  }

  lemma PositiveProduct(u: real, v: real)
    requires 0.0 < u && 0.0 < v
    ensures 0.0 < u * v
  {
  }

  lemma ProductZero(u: real, v: real)
    requires u * v == 0.0
    ensures u == 0.0 || v == 0.0
  {
  }

  /** log10 is non-negative from 1 upwards, and zero there only at 1. */
  lemma Log10NonNegative(log10: real -> real, x: real)
    requires IsLog10(log10) && 1.0 <= x
    ensures 0.0 <= log10(x)
    ensures log10(x) == 0.0 <==> x == 1.0
  {
  }

  /** Of two reals with ordered squares, the non-negative larger one bounds the other. */
  lemma SquareBound(a: real, b: real)
    requires 0.0 <= b && a * a <= b * b
    ensures a <= b
  {
    assert (a - b) * (a + b) == a * a - b * b;
    if a > b {
      PositiveProduct(a - b, a + b);
    }
  }

  /** A non-negative d whose square is at most x * y is at most sqrt(x) * sqrt(y). */
  lemma BelowProductOfRoots(sqrt: real -> real, d: real, x: real, y: real)
    requires IsSqrt(sqrt) && 0.0 <= x && 0.0 <= y
    requires d * d <= x * y
    ensures d <= sqrt(x) * sqrt(y)
  {
    var m := sqrt(x) * sqrt(y);
    assert 0.0 <= m;
    assert m * m == (sqrt(x) * sqrt(x)) * (sqrt(y) * sqrt(y));
    SquareBound(d, m);
  }

  /**
   * One step of the Cauchy–Schwarz inequality: if t is the product of the
   * next terms of two vectors (t * t == ta * tb for their squares ta, tb),
   * adding them to sums d, p, q that obey the inequality keeps it.
   */
  lemma CauchySchwarzStep(t: real, ta: real, tb: real, d: real, p: real, q: real)
    requires 0.0 <= ta && 0.0 <= tb && t * t == ta * tb
    requires 0.0 <= p && 0.0 <= q && d * d <= p * q
    ensures (t + d) * (t + d) <= (ta + p) * (tb + q)
  {
    var u, v := ta * q, p * tb;
    assert 0.0 <= u && 0.0 <= v;
    var e := 2.0 * t * d;
    assert e * e == 4.0 * (t * t) * (d * d);
    assert 4.0 * (t * t) * (d * d) <= 4.0 * (ta * tb) * (p * q);
    assert 4.0 * (ta * tb) * (p * q) == 4.0 * u * v;
    assert (u + v) * (u + v) - 4.0 * u * v == (u - v) * (u - v);
    assert e * e <= (u + v) * (u + v);
    SquareBound(e, u + v);
    assert (t + d) * (t + d) == t * t + e + d * d;
    assert (ta + p) * (tb + q) == ta * tb + u + v + p * q;
  }

  /** Some element of a non-empty set. */
  ghost function Pick(s: set<string>): (x: string)
    requires s != {}
    ensures x in s
  {
    var x :| x in s; x
  }

  /** The sum of f over the finite set s. */
  ghost function SetSum(s: set<string>, f: string -> real): real
    decreases s
  {
    if s == {} then 0.0
    else
      var x := Pick(s);
      f(x) + SetSum(s - {x}, f)
  }

  /** The sum can be taken apart at any element: the order of summation does not matter. */
  lemma {:induction false} SetSumRemove(s: set<string>, f: string -> real, x: string)
    requires x in s
    ensures SetSum(s, f) == f(x) + SetSum(s - {x}, f)
    decreases s
  {
    var y := Pick(s);
    if y != x {
      SetSumRemove(s - {y}, f, x);
      SetSumRemove(s - {x}, f, y);
      assert s - {y} - {x} == s - {x} - {y};
    }
  }

  /** Summing one more element. */
  lemma SetSumAdd(s: set<string>, f: string -> real, x: string)
    requires x !in s
    ensures SetSum(s + {x}, f) == SetSum(s, f) + f(x)
  {
    SetSumRemove(s + {x}, f, x);
    assert s + {x} - {x} == s;
  }

  /** Summing over the part of s + {x} inside c: x adds its term only if it lies in c. */
  lemma SetSumAddWithin(s: set<string>, c: set<string>, f: string -> real, x: string)
    requires x !in s
    ensures SetSum((s + {x}) * c, f) == SetSum(s * c, f) + (if x in c then f(x) else 0.0)
  {
    if x in c {
      assert (s + {x}) * c == s * c + {x};
      SetSumAdd(s * c, f, x);
    } else {
      assert (s + {x}) * c == s * c;
    }
  }

  /** Sums of functions that agree on the set are equal. */
  lemma {:induction false} SetSumCongruent(s: set<string>, f: string -> real, g: string -> real)
    requires forall k :: k in s ==> f(k) == g(k)
    ensures SetSum(s, f) == SetSum(s, g)
    decreases s
  {
    if s != {} {
      SetSumCongruent(s - {Pick(s)}, f, g);
    }
  }

  /** A sum of non-negative terms is non-negative, and zero exactly when every term is. */
  lemma {:induction false} SetSumNonNegative(s: set<string>, f: string -> real)
    requires forall k :: k in s ==> 0.0 <= f(k)
    ensures 0.0 <= SetSum(s, f)
    ensures SetSum(s, f) == 0.0 <==> forall k :: k in s ==> f(k) == 0.0
    decreases s
  {
    if s != {} {
      var x := Pick(s);
      SetSumNonNegative(s - {x}, f);
      if SetSum(s, f) == 0.0 {
        forall k | k in s ensures f(k) == 0.0 {
          if k != x {
            assert k in s - {x};
          }
        }
      }
    }
  }

  /** For non-negative terms, summing over a subset gives no more. */
  lemma {:induction false} SetSumSubset(c: set<string>, s: set<string>, f: string -> real)
    requires c <= s
    requires forall k :: k in s ==> 0.0 <= f(k)
    ensures SetSum(c, f) <= SetSum(s, f)
    decreases s
  {
    if s == {} {
      assert c == {};
    } else {
      var x := Pick(s);
      SetSumSubset(c - {x}, s - {x}, f);
      if x in c {
        SetSumRemove(c, f, x);
      } else {
        assert c - {x} == c;
        SetSumNonNegative({x}, f);
        SetSumRemove({x}, f, x);
      }
    }
  }
}

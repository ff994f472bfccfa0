/** Real-number stand-ins for the `f64` operations the source uses.

    `Sqrt` and `Exp` are left uninterpreted. Each is built on an unconstrained
    real function and guarantees only the sign facts the model relies on, so
    no proof depends on their actual values or on IEEE rounding. */
module RealMath {

  /** An unconstrained function; nothing is known about its values. */
  const RawSqrt: real -> real

  /** An unconstrained function; nothing is known about its values. */
  const RawExp: real -> real

  /** `f64::sqrt`, known only to be zero at zero and positive on positive
      arguments. The model never takes the root of a negative number (where
      `f64::sqrt` gives NaN); such arguments map to zero. */
  function Sqrt(x: real): (r: real)
    ensures r >= 0.0
    ensures x == 0.0 ==> r == 0.0
    ensures x > 0.0 ==> r > 0.0
  {
    if x <= 0.0 then 0.0 else if RawSqrt(x) > 0.0 then RawSqrt(x) else 1.0
  }

  /** `f64::exp`, known only to be positive. */
  function Exp(x: real): (r: real)
    ensures r > 0.0
  {
    if RawExp(x) > 0.0 then RawExp(x) else 1.0
  }

  function Abs(x: real): (r: real)
    ensures r >= 0.0 && (r == x || r == -x)
  {
    if x < 0.0 then -x else x
  }

  function Min(a: real, b: real): (r: real)
    ensures r <= a && r <= b && (r == a || r == b)
  {
    if a <= b then a else b
  }

  function Max(a: real, b: real): (r: real)
    ensures r >= a && r >= b && (r == a || r == b)
  {
    if a >= b then a else b
  }

  /** `f64::round`: to the nearest integer, half-way cases away from zero. */
  function RoundHalfAway(x: real): (k: int)
    ensures x >= 0.0 ==> k as real - 0.5 <= x < k as real + 0.5
    ensures x < 0.0 ==> k as real - 0.5 < x <= k as real + 0.5
  {
    if x >= 0.0 then (x + 0.5).Floor else -((0.5 - x).Floor)
  }

  /** The integer part of `x`, as `as i32` and `as i64` take it before saturating. */
  function TruncateTowardZero(x: real): (k: int)
    ensures Abs(k as real) <= Abs(x) < Abs(k as real) + 1.0
    ensures (x >= 0.0 ==> k >= 0) && (x <= 0.0 ==> k <= 0)
  {
    if x >= 0.0 then x.Floor else -((-x).Floor)
  }

  const I64Min: int := -0x8000_0000_0000_0000
  const I64Max: int := 0x7FFF_FFFF_FFFF_FFFF
  const I32Min: int := -0x8000_0000
  const I32Max: int := 0x7FFF_FFFF

  /** The distance between two integers. */
  function Distance(a: int, b: int): nat {
    if a <= b then b - a else a - b
  }

  /** A float-to-integer `as` cast clamps to the target range: the result is
      the value of the range nearest to `k`, which is `k` itself when it fits. */
  function Saturate(k: int, lo: int, hi: int): (r: int)
    requires lo <= hi
    ensures lo <= r <= hi
    ensures lo <= k <= hi ==> r == k
    ensures forall x :: lo <= x <= hi ==> Distance(r, k) <= Distance(x, k)
  {
    if k < lo then lo else if k > hi then hi else k
  }

  /** Left-to-right sum, as `Iterator::sum` computes it. */
  function Sum(s: seq<real>): real
  {
    if s == [] then 0.0 else Sum(s[..|s| - 1]) + s[|s| - 1]
  }

  lemma {:induction false} SumAppend(s: seq<real>, x: real)
    ensures Sum(s + [x]) == Sum(s) + x
  {
    assert (s + [x])[..|s + [x]| - 1] == s;
  }

  /** A sum of `n` terms each in `[lo, hi]` lies in `[n * lo, n * hi]`. */
  lemma {:induction false} SumBounds(s: seq<real>, lo: real, hi: real)
    requires forall i :: 0 <= i < |s| ==> lo <= s[i] <= hi
    ensures |s| as real * lo <= Sum(s) <= |s| as real * hi
  {
    if s != [] {
      SumBounds(s[..|s| - 1], lo, hi);
    }
  }

  lemma {:induction false} MulMonotone(w: real, a: real, b: real)
    requires w >= 0.0 && a <= b
    ensures w * a <= w * b
  {
    assert w * b - w * a == w * (b - a);
  }

  lemma {:induction false} DivBounds(s: real, n: real, lo: real, hi: real)
    requires n > 0.0 && n * lo <= s <= n * hi
    ensures lo <= s / n <= hi
  {
    var m := s / n;
    assert s == n * m;
    MulMonotone(n, lo, m);
  }

  /** A weighted sum with non-negative weights is monotone in the weighted values. */
  lemma {:induction false} WeightedMonotone(a: real, b: real, c: real, x: real, y: real, z: real,
                                            x': real, y': real, z': real)
    requires a >= 0.0 && b >= 0.0 && c >= 0.0
    requires x <= x' && y <= y' && z <= z'
    ensures a * x + b * y + c * z <= a * x' + b * y' + c * z'
  {
    MulMonotone(a, x, x');
    MulMonotone(b, y, y');
    MulMonotone(c, z, z');
  }

  lemma {:induction false} DivNonNegative(a: real, b: real)
    requires a >= 0.0 && b > 0.0
    ensures a / b >= 0.0
  {
    DivBounds(a, b, 0.0, a / b);
  }
}

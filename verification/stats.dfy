/**
 Sums, arithmetic means, JavaScript-style rounding and floor-of-division,
 shared by the tempo estimator, the bar-grid builder and the player.
 Timestamps and durations are milliseconds, modelled as exact reals.
 */
module Stats {

  /** Left-to-right sum, as `xs.reduce((a, b) => a + b, 0)`. */
  function Sum(xs: seq<real>): real
  {
    if |xs| == 0 then 0.0 else Sum(xs[..|xs| - 1]) + xs[|xs| - 1]
  }

  /** Arithmetic mean; the empty list averages to 0. */
  function Average(xs: seq<real>): (r: real)
    ensures |xs| == 0 ==> r == 0.0
    ensures |xs| > 0 ==> r * |xs| as real == Sum(xs)
  {
    if |xs| == 0 then 0.0 else Sum(xs) / |xs| as real
  }

  /** `Math.round`: halves round towards positive infinity. */
  function Round(x: real): (r: int)
    ensures r as real - 0.5 <= x < r as real + 0.5
  {
    (x + 0.5).Floor
  }

  function Abs(x: real): (r: real)
    ensures r >= 0.0
    ensures r == x || r == -x
  {
    if x < 0.0 then -x else x
  }

  lemma {:induction false} SumAppend(xs: seq<real>, x: real)
    ensures Sum(xs + [x]) == Sum(xs) + x
  {
    assert (xs + [x])[..|xs|] == xs;
  }

  lemma {:induction false} SumConcat(a: seq<real>, b: seq<real>)
    ensures Sum(a + b) == Sum(a) + Sum(b)
    decreases |b|
  {
    if |b| == 0 {
      assert a + b == a;
    } else {
      var b' := b[..|b| - 1];
      assert a + b == (a + b') + [b[|b| - 1]];
      SumConcat(a, b');
      SumAppend(a + b', b[|b| - 1]);
      assert b == b' + [b[|b| - 1]];
      SumAppend(b', b[|b| - 1]);
    }
  }

  /** Every element at least `lo` and at most `hi` bounds the sum. */
  lemma {:induction false} SumBounds(xs: seq<real>, lo: real, hi: real)
    requires forall k :: 0 <= k < |xs| ==> lo <= xs[k] <= hi
    ensures |xs| as real * lo <= Sum(xs) <= |xs| as real * hi
  {
    if |xs| > 0 {
      var n := |xs| - 1;
      SumBounds(xs[..n], lo, hi);
      assert |xs| as real * lo == n as real * lo + lo;
      assert |xs| as real * hi == n as real * hi + hi;
    }
  }

  /** Strict version: every element strictly between `lo` and `hi`. */
  lemma {:induction false} SumStrictBounds(xs: seq<real>, lo: real, hi: real)
    requires |xs| > 0
    requires forall k :: 0 <= k < |xs| ==> lo < xs[k] < hi
    ensures |xs| as real * lo < Sum(xs) < |xs| as real * hi
  {
    var n := |xs| - 1;
    if n == 0 {
      assert xs[..n] == [];
    } else {
      SumStrictBounds(xs[..n], lo, hi);
    }
    assert |xs| as real * lo == n as real * lo + lo;
    assert |xs| as real * hi == n as real * hi + hi;
  }

  /** The mean of a non-empty list lies strictly inside any open band holding all its elements. */
  lemma AverageStrictlyWithin(xs: seq<real>, lo: real, hi: real)
    requires |xs| > 0
    requires forall k :: 0 <= k < |xs| ==> lo < xs[k] < hi
    ensures lo < Average(xs) < hi
  {
    SumStrictBounds(xs, lo, hi);
    var n := |xs| as real;
    var a := Average(xs);
    assert (a - lo) * n > 0.0 && (hi - a) * n > 0.0;
  }

  /** The mean of a non-empty list lies inside any closed band holding all its elements. */
  lemma AverageWithin(xs: seq<real>, lo: real, hi: real)
    requires |xs| > 0
    requires forall k :: 0 <= k < |xs| ==> lo <= xs[k] <= hi
    ensures lo <= Average(xs) <= hi
  {
    SumBounds(xs, lo, hi);
    var n := |xs| as real;
    var a := Average(xs);
    assert (a - lo) * n >= 0.0 && (hi - a) * n >= 0.0;
  }

  /** A list of equal values averages to that value. */
  lemma AverageConstant(xs: seq<real>, c: real)
    requires |xs| > 0
    requires forall k :: 0 <= k < |xs| ==> xs[k] == c
    ensures Average(xs) == c
  {
    AverageWithin(xs, c, c);
  }

  /** Multiplying by a positive factor keeps the order. */
  lemma MulMonotone(a: real, c: real, w: real)
    requires w > 0.0
    ensures a <= c ==> a * w <= c * w
    ensures a < c ==> a * w < c * w
  {
  }

  /** `Math.floor(x / w)` for a positive width: the number of whole widths `x` spans. */
  function Slices(x: real, w: real): (s: int)
    requires w > 0.0
    ensures s as real * w <= x
    ensures x < (s + 1) as real * w
  {
    var q := x / w;
    assert q * w == x;
    var n := q.Floor;
    assert n as real <= q < (n + 1) as real;
    MulMonotone(n as real, q, w);
    MulMonotone(q, (n + 1) as real, w);
    assert x < (n + 1) as real * w;
    n
  }

  /** A span of at least `k` widths has at least `k` whole slices. */
  lemma SlicesAtLeast(x: real, w: real, k: int)
    requires w > 0.0
    requires k as real * w <= x
    ensures Slices(x, w) >= k
  {
    var s := Slices(x, w);
    var a := (s + 1) as real;
    var c := k as real;
    assert x < (s + 1) as real * w;
    assert x < a * w;
    assert c * w <= x;
    MulMonotone(a, c, w);
    assert a * w > c * w;
    assert !(a <= c);
  }

  /** Only one slice holds `x`. */
  lemma SlicesUnique(x: real, w: real, k: int)
    requires w > 0.0
    requires k as real * w <= x < (k + 1) as real * w
    ensures Slices(x, w) == k
  {
    SlicesAtLeast(x, w, k);
    var s := Slices(x, w);
    var a := (k + 1) as real;
    var c := s as real;
    assert x < a * w;
    assert c * w <= x;
    MulMonotone(a, c, w);
    assert a * w > c * w;
    assert !(a <= c);
  }

  /** Integer division of a number by a positive divisor is unique. */
  lemma ModUnique(n: int, b: int, q: int, r: int)
    requires b > 0 && 0 <= r < b && n == q * b + r
    ensures n % b == r
  {
    var q0 := n / b;
    var r0 := n % b;
    assert q0 * b + r0 == q * b + r;
    assert (q0 - q) * b == r - r0;
    MulBound(q0 - q, b);
  }

  lemma MulBound(x: int, b: int)
    requires b > 0 && -b < x * b < b
    ensures x == 0
  {
    if x > 0 {
      MulAtLeast(x, b);
    } else if x < 0 {
      MulAtLeast(-x, b);
    }
  }

  lemma MulAtLeast(x: int, b: int)
    requires x >= 1 && b > 0
    ensures x * b >= b
  {
  }
}

/**
 * Floating-point and NumPy operations. Everything transcendental, and everything that
 * depends on IEEE infinities or NaN, is an uninterpreted field of `Ops`; exact rational
 * arithmetic (division by a non-zero value, `np.linspace`, `np.mean`) is stated over `real`.
 */
module Numeric {
  import opened Seqs

  /** The operations the model leaves abstract. */
  datatype Ops = Ops(
    pow: (real, real) -> real,                // x ** y with a real exponent
    log10: real -> real,                      // np.log10
    exp10: real -> real,                      // 10 ** x
    ln: real -> real,                         // np.log
    sqrt: real -> real,                       // np.sqrt
    divByZero: real -> real,                  // a / 0.0: an IEEE infinity or NaN, which `real` lacks
    isInf: real -> bool,                      // np.isinf
    percentile: (seq<real>, real) -> real,    // np.percentile with linear interpolation
    slope: (seq<real>, seq<real>) -> real     // leading coefficient of np.polyfit(x, y, 1)
  )

  // Each primitive is applied through a function of its own, so that equal arguments give
  // equal results by congruence wherever the primitive appears.

  function Pow(ops: Ops, x: real, y: real): real { ops.pow(x, y) }
  function Log10(ops: Ops, x: real): real { ops.log10(x) }
  function Exp10(ops: Ops, x: real): real { ops.exp10(x) }
  function Ln(ops: Ops, x: real): real { ops.ln(x) }
  function Sqrt(ops: Ops, x: real): real { ops.sqrt(x) }
  function IsInf(ops: Ops, x: real): bool { ops.isInf(x) }
  function Percentile(ops: Ops, s: seq<real>, q: real): real { ops.percentile(s, q) }
  function Slope(ops: Ops, xs: seq<real>, ys: seq<real>): real { ops.slope(xs, ys) }

  /** Floating-point division: exact when the divisor is non-zero. */
  function Div(ops: Ops, a: real, b: real): real
  {
    if b != 0.0 then a / b else ops.divByZero(a)
  }

  /** Division by a non-zero value is undone by multiplication. */
  lemma DivInverse(ops: Ops, a: real, b: real)
    requires b != 0.0
    ensures Div(ops, a, b) * b == a
  {
  }

  function Abs(x: real): (r: real)
    ensures r >= 0.0 && (r == x || r == -x)
  {
    if x < 0.0 then -x else x
  }

  /** Python's `max(a, b)`: the first argument unless the second is larger. */
  function Max(a: real, b: real): (m: real)
    ensures m >= a && m >= b && (m == a || m == b)
  {
    if b > a then b else a
  }

  /** np.mean: the sum divided by the count (NaN, here `divByZero`, for an empty array). */
  function Mean(ops: Ops, s: seq<real>): real
  {
    Div(ops, Sum(s), |s| as real)
  }

  /** np.std with ddof=0: the square root of the mean squared deviation from the mean. */
  function Std(ops: Ops, s: seq<real>): real
  {
    Sqrt(ops, Mean(ops, SquaredDeviations(s, Mean(ops, s))))
  }

  /** (s[i] - m)^2 for every element. */
  function SquaredDeviations(s: seq<real>, m: real): (d: seq<real>)
    ensures |d| == |s|
  {
    seq(|s|, i requires 0 <= i < |s| => (s[i] - m) * (s[i] - m))
  }

  /** A non-empty sequence whose elements all equal c has mean c. */
  lemma ConstantMean(ops: Ops, s: seq<real>, c: real)
    requires |s| > 0 && forall i :: 0 <= i < |s| ==> s[i] == c
    ensures Mean(ops, s) == c
  {
    ArithmeticPrefixSum(s, c, 0.0, |s|);
    assert s[..|s|] == s;
  }

  /** A non-empty constant sequence has standard deviation sqrt(0), which is 0 when sqrt is exact there. */
  lemma ConstantStd(ops: Ops, s: seq<real>, c: real)
    requires |s| > 0 && forall i :: 0 <= i < |s| ==> s[i] == c
    requires ops.sqrt(0.0) == 0.0
    ensures Std(ops, s) == 0.0
  {
    ConstantMean(ops, s, c);
    var d := SquaredDeviations(s, c);
    ConstantMean(ops, d, 0.0);
  }

  /** np.linspace(a, b, n): n evenly spaced points from a to b, both included. */
  function Linspace(a: real, b: real, n: nat): (r: seq<real>)
    requires n >= 2
    ensures |r| == n && r[0] == a && r[n - 1] == b
    ensures forall i :: 0 <= i < n ==> r[i] == a + (i as real) * LinspaceStep(a, b, n)
    ensures a <= b ==> Sorted(r)
  {
    var step := LinspaceStep(a, b, n);
    var r := seq(n, i requires 0 <= i < n => a + (i as real) * step);
    assert r[n - 1] == b by { StepSpansRange(a, b, n); }
    assert a <= b ==> Sorted(r) by {
      if a <= b {
        forall i, j | 0 <= i < j < n ensures r[i] <= r[j] {
          MulMonotone(i as real, j as real, step);
        }
      }
    }
    r
  }

  /** The spacing of np.linspace(a, b, n). */
  function LinspaceStep(a: real, b: real, n: nat): (d: real)
    requires n >= 2
    ensures a <= b ==> d >= 0.0
  {
    (b - a) / ((n - 1) as real)
  }

  lemma StepSpansRange(a: real, b: real, n: nat)
    requires n >= 2
    ensures a + ((n - 1) as real) * LinspaceStep(a, b, n) == b
  {
  }

  lemma MulMonotone(x: real, y: real, c: real)
    requires x <= y && c >= 0.0
    ensures x * c <= y * c
  {
    assert y * c - x * c == (y - x) * c;
  }

  lemma SelfDivision(n: real)
    requires n > 0.0
    ensures n / n == 1.0
  {
  }

  lemma DivMonotone(x: real, y: real, n: real)
    requires x <= y && n > 0.0
    ensures x / n <= y / n
  {
    assert y / n - x / n == (y - x) / n;
  }

  /** (k-1)(k-2)/2 + (k-1) == k(k-1)/2: the step of the triangular-number sum. */
  lemma TriangleStep(k: real)
    ensures (k - 1.0) * (k - 2.0) / 2.0 + (k - 1.0) == k * (k - 1.0) / 2.0
  {
  }

  /** The first k terms of an arithmetic progression a, a+d, ... sum to k*a + d*k*(k-1)/2. */
  lemma {:induction false} ArithmeticPrefixSum(s: seq<real>, a: real, d: real, k: nat)
    requires k <= |s|
    requires forall i :: 0 <= i < |s| ==> s[i] == a + (i as real) * d
    ensures Sum(s[..k]) == (k as real) * a + d * ((k as real) * ((k as real) - 1.0) / 2.0)
  {
    if k == 0 {
      assert s[..0] == [];
    } else {
      var K := k as real;
      ArithmeticPrefixSum(s, a, d, k - 1);
      assert s[..k][..k - 1] == s[..k - 1];
      assert Sum(s[..k]) == Sum(s[..k - 1]) + s[k - 1];
      ArithmeticStep(a, d, K);
    }
  }

  lemma ArithmeticStep(a: real, d: real, K: real)
    ensures (K - 1.0) * a + d * ((K - 1.0) * (K - 1.0 - 1.0) / 2.0) + (a + (K - 1.0) * d)
            == K * a + d * (K * (K - 1.0) / 2.0)
  {
    TriangleStep(K);
    assert d * ((K - 1.0) * (K - 2.0) / 2.0) + (K - 1.0) * d == d * ((K - 1.0) * (K - 2.0) / 2.0 + (K - 1.0));
  }

  /** The mean of np.linspace(a, b, n) is the midpoint of its bounds. */
  lemma LinspaceMean(ops: Ops, a: real, b: real, n: nat)
    requires n >= 2
    ensures Mean(ops, Linspace(a, b, n)) == (a + b) / 2.0
  {
    var s := Linspace(a, b, n);
    ArithmeticPrefixSum(s, a, LinspaceStep(a, b, n), n);
    assert s[..n] == s;
    var N := n as real;
    var d := LinspaceStep(a, b, n);
    StepSpansRange(a, b, n);
    assert (N - 1.0) * d == b - a;
    assert d * (N * (N - 1.0) / 2.0) == N * ((N - 1.0) * d) / 2.0;
    assert Sum(s) == N * ((a + b) / 2.0);
    assert Mean(ops, s) == Sum(s) / N;
  }
}

/**
 * Anchoring the power law to the density curve and the reference-normalised magnitude
 * (the pure expressions of `calculate_mls`).
 */
module PowerLawFit {
  import opened Seqs
  import opened Numeric

  /** Calibration constants of the Northridge reference inventory. */
  const RefMidx: real := 48765.99623713225
  const RefMidy: real := 0.0008364725347860417
  const RefCount: real := 11111.0

  /** |x1 - cutoff|, elementwise. */
  function Distances(centres: seq<real>, cutoff: real): (d: seq<real>)
    ensures |d| == |centres|
  {
    seq(|centres|, i requires 0 <= i < |centres| => Abs(centres[i] - cutoff))
  }

  /** np.argmin: the first index of a smallest element. */
  function ArgMin(s: seq<real>): (k: nat)
    requires |s| > 0
    ensures k < |s|
    ensures forall j :: 0 <= j < |s| ==> s[k] <= s[j]
    ensures forall j :: 0 <= j < k ==> s[k] < s[j]
  {
    if |s| == 1 then 0
    else
      var k := ArgMin(s[..|s| - 1]);
      assert forall j :: 0 <= j < |s| - 1 ==> s[..|s| - 1][j] == s[j];
      if s[|s| - 1] < s[k] then |s| - 1 else k
  }

  /**
   * The anchor: the first bin whose centre is nearest the cutoff. It exists for every cutoff,
   * inside or outside the range of the centres.
   */
  function AnchorIndex(centres: seq<real>, cutoff: real): (k: nat)
    requires |centres| > 0
    ensures k < |centres|
    ensures forall j :: 0 <= j < |centres| ==> Abs(centres[k] - cutoff) <= Abs(centres[j] - cutoff)
    ensures forall j :: 0 <= j < k ==> Abs(centres[k] - cutoff) < Abs(centres[j] - cutoff)
  {
    var d := Distances(centres, cutoff);
    var k := ArgMin(d);
    assert forall j :: 0 <= j < |centres| ==> d[j] == Abs(centres[j] - cutoff);
    k
  }

  /** `if beta > 0: beta = -1 * beta`. */
  function NormaliseBeta(beta: real): (b: real)
    ensures b <= 0.0 && b == -Abs(beta)
  {
    if beta > 0.0 then -1.0 * beta else beta
  }

  /** A positive exponent is treated exactly like its negation. */
  lemma NormaliseBetaSignInvariant(beta: real)
    requires beta > 0.0
    ensures NormaliseBeta(beta) == NormaliseBeta(-beta)
  {
  }

  /** constant = y[0] / cutoff^beta: the curve constant * x^beta passes through y[0] at the cutoff. */
  function ScaleConstant(ops: Ops, y0: real, cutoff: real, beta: real): real
  {
    Div(ops, y0, Pow(ops, cutoff, beta))
  }

  /** 10^((log10(max area) + log10(cutoff)) / 2): the geometric mean of the two. */
  function MidX(ops: Ops, maxArea: real, cutoff: real): real
  {
    Exp10(ops, (Log10(ops, maxArea) + Log10(ops, cutoff)) / 2.0)
  }

  /** The power law c * x^beta evaluated at x. */
  function CurveAt(ops: Ops, c: real, x: real, beta: real): real
  {
    c * Pow(ops, x, beta)
  }

  /** ac = ref_midy / (11111 * ref_midx^beta): the scale of the reference inventory. */
  function RefScale(ops: Ops, beta: real): real
  {
    Div(ops, RefMidy, CurveAt(ops, RefCount, RefMidx, beta))
  }

  /**
   * Why the calculation raises: `max` of no areas (ValueError), or a division by zero in plain
   * Python floats (ZeroDivisionError).
   */
  datatype MlsError = EmptyArea | ZeroDivision

  /** Python's float `x ** y` raises ZeroDivisionError for a zero base and a negative exponent. */
  predicate ZeroToNegativePower(x: real, y: real)
  {
    x == 0.0 && y < 0.0
  }

  /**
   * `ref_midy / (11111 * ref_midx ** beta)` in Python floats raises ZeroDivisionError when the
   * power underflows to 0.0 (a strongly negative exponent).
   */
  predicate RefScaleRaises(ops: Ops, beta: real)
  {
    CurveAt(ops, RefCount, RefMidx, beta) == 0.0
  }

  /** When ac is computed without raising, it is a non-zero quotient. */
  lemma RefScaleNonZero(ops: Ops, beta: real)
    requires !RefScaleRaises(ops, beta)
    ensures RefScale(ops, beta) == RefMidy / CurveAt(ops, RefCount, RefMidx, beta)
    ensures RefScale(ops, beta) != 0.0
  {
    var d := CurveAt(ops, RefCount, RefMidx, beta);
    if RefMidy / d == 0.0 {
      assert RefMidy == (RefMidy / d) * d;
    }
  }

  /** log10(midy / (ac * midx^beta)), the magnitude formula shared by the estimate and every trial. */
  function MagnitudeAt(ops: Ops, midy: real, midx: real, beta: real): real
  {
    Log10(ops, Div(ops, midy, CurveAt(ops, RefScale(ops, beta), midx, beta)))
  }

  /** The anchored power law and the quantities the uncertainty path reuses. */
  datatype Fit = Fit(
    anchor: nat,          // index_midpoint
    beta: real,           // beta after sign normalisation (beta_stored)
    anchorDensity: real,  // y[0]
    constant: real,
    midx: real,
    midy: real,
    ac: real,
    magnitude: real       // mls_value
  )

  function FitPowerLaw(ops: Ops, maxArea: real, centres: seq<real>, density: seq<real>,
                       cutoff: real, beta: real): (f: Fit)
    requires |centres| > 0 && |density| == |centres|
    ensures f.anchor < |centres| && f.anchorDensity == density[f.anchor]
    ensures forall j :: 0 <= j < |centres| ==>
              Abs(centres[f.anchor] - cutoff) <= Abs(centres[j] - cutoff)
    ensures f.beta <= 0.0 && f.beta == -Abs(beta)
  {
    var anchor := AnchorIndex(centres, cutoff);
    var b := NormaliseBeta(beta);
    var y0 := density[anchor];
    var constant := ScaleConstant(ops, y0, cutoff, b);
    var midx := MidX(ops, maxArea, cutoff);
    var midy := CurveAt(ops, constant, midx, b);
    Fit(anchor, b, y0, constant, midx, midy, RefScale(ops, b), MagnitudeAt(ops, midy, midx, b))
  }

  /**
   * The fitted curve constant * x^beta passes through the anchor density at x = cutoff
   * (when cutoff^beta is non-zero).
   */
  lemma CurvePassesThroughAnchor(ops: Ops, maxArea: real, centres: seq<real>, density: seq<real>,
                                 cutoff: real, beta: real)
    requires |centres| > 0 && |density| == |centres|
    ensures var f := FitPowerLaw(ops, maxArea, centres, density, cutoff, beta);
            Pow(ops, cutoff, f.beta) != 0.0 ==> CurveAt(ops, f.constant, cutoff, f.beta) == f.anchorDensity
  {
    var f := FitPowerLaw(ops, maxArea, centres, density, cutoff, beta);
    if Pow(ops, cutoff, f.beta) != 0.0 {
      DivInverse(ops, f.anchorDensity, Pow(ops, cutoff, f.beta));
    }
  }

  /** Two power laws with the same exponent have a ratio that does not depend on x. */
  lemma CurveRatio(ops: Ops, c: real, ac: real, x: real, beta: real)
    requires Pow(ops, x, beta) != 0.0 && ac != 0.0
    ensures Div(ops, CurveAt(ops, c, x, beta), CurveAt(ops, ac, x, beta)) == Div(ops, c, ac)
  {
    var p := Pow(ops, x, beta);
    assert ac * p != 0.0;
    assert (c * p) / (ac * p) == c / ac by {
      assert (c / ac) * (ac * p) == c * p;
    }
  }

  /**
   * Because midy = constant * midx^beta, whenever midx^beta and ac are non-zero the argument of
   * the logarithm is constant / ac, and the magnitude is log10(constant / ac).
   */
  lemma MagnitudeIdentity(ops: Ops, maxArea: real, centres: seq<real>, density: seq<real>,
                          cutoff: real, beta: real)
    requires |centres| > 0 && |density| == |centres|
    ensures var f := FitPowerLaw(ops, maxArea, centres, density, cutoff, beta);
            Pow(ops, f.midx, f.beta) != 0.0 && f.ac != 0.0 ==>
              Div(ops, f.midy, CurveAt(ops, f.ac, f.midx, f.beta)) == Div(ops, f.constant, f.ac) &&
              f.magnitude == Log10(ops, Div(ops, f.constant, f.ac))
  {
    var f := FitPowerLaw(ops, maxArea, centres, density, cutoff, beta);
    if Pow(ops, f.midx, f.beta) != 0.0 && f.ac != 0.0 {
      CurveRatio(ops, f.constant, f.ac, f.midx, f.beta);
    }
  }

  /** The fit with a positive exponent equals the fit with its negation. */
  lemma FitSignInvariant(ops: Ops, maxArea: real, centres: seq<real>, density: seq<real>,
                         cutoff: real, beta: real)
    requires |centres| > 0 && |density| == |centres|
    requires beta > 0.0
    ensures FitPowerLaw(ops, maxArea, centres, density, cutoff, beta)
            == FitPowerLaw(ops, maxArea, centres, density, cutoff, -beta)
  {
    NormaliseBetaSignInvariant(beta);
  }
}

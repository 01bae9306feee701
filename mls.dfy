/**
 * calculate_mls: landslide-event magnitude from a list of landslide areas, a cutoff and a
 * power-law exponent, with an optional Monte-Carlo uncertainty.
 */
module MlsCalculator {
  import opened Wrappers
  import opened Seqs
  import opened Numeric
  import opened Binning
  import opened PowerLawFit
  import opened Uncertainty

  /**
   * What the calculation yields besides the plot: the fit (whose `magnitude` is mls_value and
   * whose `beta` is beta_stored), the uncertainty, and the density curve the plot is drawn from.
   */
  datatype Mls = Mls(fit: Fit, error: Spread, centres: seq<real>, density: seq<real>)

  /** The density curve: counts per bin over the fixed edges, divided by the bin widths. */
  function DensityCurve(ops: Ops, areas: seq<real>): (fd: seq<real>)
    ensures |fd| == NumBins
  {
    Density(ops, Histogram(areas, Edges()), Widths(Edges()))
  }

  /**
   * The whole calculation as a function of its inputs and of the random draws. The cutoff and
   * the exponent are plain Python floats, so the calculation raises, in the order of the
   * source, at `cutoff ** beta` with a zero cutoff and a negative exponent, at `max(area)`
   * with no areas, at `ref_midy / (11111 * ref_midx ** beta)` when the power underflows, and
   * in any Monte-Carlo trial that divides by zero.
   */
  function MlsSpec(ops: Ops, normal: Sampler, areas: seq<real>, cutoff: real, beta: real,
                   betaError: Option<real>, cutoffError: Option<real>): Result<Mls, MlsError>
  {
    var b := NormaliseBeta(beta);
    if ZeroToNegativePower(cutoff, b) then Err(ZeroDivision)
    else if |areas| == 0 then Err(EmptyArea)
    else if RefScaleRaises(ops, b) then Err(ZeroDivision)
    else Completed(ops, normal, areas, cutoff, beta, betaError, cutoffError)
  }

  /** The fit of the point estimate, from the histogram of the areas over the fixed bins. */
  function MlsFit(ops: Ops, areas: seq<real>, cutoff: real, beta: real): (f: Fit)
    requires |areas| > 0
    ensures f.beta == NormaliseBeta(beta)
  {
    FitPowerLaw(ops, MaxOf(areas), Centres(Edges()), DensityCurve(ops, areas), cutoff, beta)
  }

  /**
   * The calculation once the point estimate has been computed: only the Monte-Carlo trials can
   * still raise, and they run only when both error parameters are given.
   */
  function Completed(ops: Ops, normal: Sampler, areas: seq<real>, cutoff: real, beta: real,
                     betaError: Option<real>, cutoffError: Option<real>): (r: Result<Mls, MlsError>)
    requires |areas| > 0
    ensures betaError.None? || cutoffError.None? ==> r.Ok?
    ensures r.Err? ==> r.error == ZeroDivision
  {
    var f := MlsFit(ops, areas, cutoff, beta);
    match UncertaintyOf(ops, normal, f, MaxOf(areas), cutoff, betaError, cutoffError)
    case Err(e) => Err(e)
    case Ok(error) => Ok(Mls(f, error, Centres(Edges()), DensityCurve(ops, areas)))
  }

  /** The calculation step by step, with the edges, widths and centres built in arrays. */
  method CalculateMls(ops: Ops, normal: Sampler, areas: seq<real>, cutoff: real, beta: real,
                      betaError: Option<real>, cutoffError: Option<real>)
    returns (r: Result<Mls, MlsError>)
    ensures r == MlsSpec(ops, normal, areas, cutoff, beta, betaError, cutoffError)
  {
    var x1 := BuildEdges();
    var freq := Histogram(areas, x1[..]);
    var internal := BinWidths(x1);
    var fd := Density(ops, freq, internal[..]);
    var centres := BinCentres(x1);
    var c := centres[..];
    var indexMidpoint := AnchorIndex(c, cutoff);
    var b := beta;
    if b > 0.0 {
      b := -1.0 * b;
    }
    assert b == NormaliseBeta(beta);
    var betaStored := b;
    var y0 := fd[indexMidpoint];
    if cutoff == 0.0 && b < 0.0 {
      return Err(ZeroDivision);
    }
    var constant := ScaleConstant(ops, y0, cutoff, b);
    if |areas| == 0 {
      return Err(EmptyArea);
    }
    var maxArea := MaxOf(areas);
    var midx := MidX(ops, maxArea, cutoff);
    var midy := CurveAt(ops, constant, midx, b);
    if CurveAt(ops, RefCount, RefMidx, b) == 0.0 {
      return Err(ZeroDivision);
    }
    var ac := RefScale(ops, b);
    var mlsValue := MagnitudeAt(ops, midy, midx, b);
    var f := Fit(indexMidpoint, betaStored, y0, constant, midx, midy, ac, mlsValue);
    assert c == Centres(Edges()) && fd == DensityCurve(ops, areas);
    assert f == MlsFit(ops, areas, cutoff, beta);
    assert MlsSpec(ops, normal, areas, cutoff, beta, betaError, cutoffError)
           == Completed(ops, normal, areas, cutoff, beta, betaError, cutoffError);
    ghost var u := UncertaintyOf(ops, normal, f, maxArea, cutoff, betaError, cutoffError);
    var error := Unavailable;
    if betaError.Some? && cutoffError.Some? {
      var bp := BetaProxy(ops, betaStored, betaError.value);
      var cp := CutoffProxy(ops, cutoff, cutoffError.value);
      var sim := MonteCarlo(ops, normal, y0, midy, maxArea, cp, bp);
      if sim.Err? {
        assert u == Err(sim.error);
        return Err(sim.error);
      }
      error := Estimated(Std(ops, sim.value));
    }
    assert u == Ok(error);
    r := Ok(Mls(f, error, c, fd));
  }

  /**
   * Why the calculation fails. A zero cutoff with a non-zero exponent raises before anything
   * else; otherwise no areas is the ValueError of `max`; with areas, an underflowing reference
   * power raises. Without both error parameters nothing else can fail, and with them only a
   * Monte-Carlo trial that divides by zero can.
   */
  lemma FailureCauses(ops: Ops, normal: Sampler, areas: seq<real>, cutoff: real, beta: real,
                      betaError: Option<real>, cutoffError: Option<real>)
    ensures var r := MlsSpec(ops, normal, areas, cutoff, beta, betaError, cutoffError);
            var b := NormaliseBeta(beta);
            (cutoff == 0.0 && beta != 0.0 ==> r == Err(ZeroDivision)) &&
            (r == Err(EmptyArea) <==> |areas| == 0 && !(cutoff == 0.0 && beta != 0.0)) &&
            (|areas| > 0 && RefScaleRaises(ops, b) ==> r == Err(ZeroDivision)) &&
            (betaError.None? || cutoffError.None? ==>
               (r.Ok? <==> |areas| > 0 && !(cutoff == 0.0 && beta != 0.0) && !RefScaleRaises(ops, b)))
  {
  }

  /**
   * With both error parameters, the failures beyond the point estimate are exactly the raising
   * Monte-Carlo trials.
   */
  lemma TrialFailures(ops: Ops, normal: Sampler, areas: seq<real>, cutoff: real, beta: real,
                      betaError: real, cutoffError: real)
    requires |areas| > 0 && !ZeroToNegativePower(cutoff, NormaliseBeta(beta))
    requires !RefScaleRaises(ops, NormaliseBeta(beta))
    ensures var r := MlsSpec(ops, normal, areas, cutoff, beta, Some(betaError), Some(cutoffError));
            var f := MlsFit(ops, areas, cutoff, beta);
            var bp := BetaProxy(ops, f.beta, betaError);
            var cp := CutoffProxy(ops, cutoff, cutoffError);
            (r.Err? <==> exists t :: 0 <= t < Trials && TrialRaises(ops, normal, t, cp, bp)) &&
            (r.Ok? ==> r.value.error == Estimated(Std(ops, Simulated(ops, normal, f.midy, MaxOf(areas), cp, bp))))
  {
    var f := MlsFit(ops, areas, cutoff, beta);
    assert MlsSpec(ops, normal, areas, cutoff, beta, Some(betaError), Some(cutoffError))
           == Completed(ops, normal, areas, cutoff, beta, Some(betaError), Some(cutoffError));
    SimulationOutcome(ops, normal, f.midy, MaxOf(areas), CutoffProxy(ops, cutoff, cutoffError),
                      BetaProxy(ops, f.beta, betaError));
  }

  /** A result carries a numeric uncertainty exactly when both error parameters are given, else '?'. */
  lemma ErrorGating(ops: Ops, normal: Sampler, areas: seq<real>, cutoff: real, beta: real,
                    betaError: Option<real>, cutoffError: Option<real>)
    ensures var r := MlsSpec(ops, normal, areas, cutoff, beta, betaError, cutoffError);
            r.Ok? ==> (r.value.error.Estimated? <==> betaError.Some? && cutoffError.Some?)
  {
  }

  /** A positive exponent gives the same magnitude, exponent and uncertainty as its negation. */
  lemma SignInvariance(ops: Ops, normal: Sampler, areas: seq<real>, cutoff: real, beta: real,
                       betaError: Option<real>, cutoffError: Option<real>)
    requires beta > 0.0
    ensures MlsSpec(ops, normal, areas, cutoff, beta, betaError, cutoffError)
            == MlsSpec(ops, normal, areas, cutoff, -beta, betaError, cutoffError)
  {
    if |areas| > 0 {
      FitSignInvariant(ops, MaxOf(areas), Centres(Edges()), DensityCurve(ops, areas), cutoff, beta);
    }
  }

  /** In every result the exponent is -|beta| and the anchor is a centre nearest the cutoff. */
  lemma AnchorAndExponent(ops: Ops, normal: Sampler, areas: seq<real>, cutoff: real, beta: real,
                          betaError: Option<real>, cutoffError: Option<real>)
    ensures var r := MlsSpec(ops, normal, areas, cutoff, beta, betaError, cutoffError);
            var c := Centres(Edges());
            r.Ok? ==>
              r.value.fit.beta == -Abs(beta) && r.value.fit.anchor < NumBins &&
              forall j :: 0 <= j < NumBins ==> Abs(c[r.value.fit.anchor] - cutoff) <= Abs(c[j] - cutoff)
  {
  }

  /**
   * Every density value is the bin's count divided by its (positive) width, so it is defined
   * and non-negative for all 119 bins.
   */
  lemma DensityIsCountPerWidth(ops: Ops, areas: seq<real>, k: nat)
    requires k < NumBins
    ensures Widths(Edges())[k] > 0.0
    ensures DensityCurve(ops, areas)[k] >= 0.0
    ensures DensityCurve(ops, areas)[k] == Histogram(areas, Edges())[k] as real / Widths(Edges())[k]
  {
    EdgeWidthsPositive();
  }

  /** The anchor density y[0] is the density of the anchor's bin: that bin's count over its width. */
  lemma AnchorDensity(ops: Ops, normal: Sampler, areas: seq<real>, cutoff: real, beta: real,
                      betaError: Option<real>, cutoffError: Option<real>)
    ensures var r := MlsSpec(ops, normal, areas, cutoff, beta, betaError, cutoffError);
            r.Ok? ==>
              var k := r.value.fit.anchor;
              k < NumBins && Widths(Edges())[k] > 0.0 && r.value.fit.anchorDensity == r.value.density[k] &&
              r.value.fit.anchorDensity >= 0.0 &&
              r.value.fit.anchorDensity == Histogram(areas, Edges())[k] as real / Widths(Edges())[k]
  {
    var r := MlsSpec(ops, normal, areas, cutoff, beta, betaError, cutoffError);
    if r.Ok? {
      assert r.value.density == DensityCurve(ops, areas);
      DensityIsCountPerWidth(ops, areas, r.value.fit.anchor);
    }
  }

  /**
   * In every result ac is non-zero, and the magnitude is log10(constant / ac): midy lies on the
   * fitted curve, so the ratio to the reference curve at midx does not depend on midx.
   */
  lemma MagnitudeIsScaleRatio(ops: Ops, normal: Sampler, areas: seq<real>, cutoff: real, beta: real,
                              betaError: Option<real>, cutoffError: Option<real>)
    ensures var r := MlsSpec(ops, normal, areas, cutoff, beta, betaError, cutoffError);
            r.Ok? ==>
              var f := r.value.fit;
              f.ac != 0.0 &&
              (Pow(ops, f.midx, f.beta) != 0.0 ==> f.magnitude == Log10(ops, Div(ops, f.constant, f.ac)))
  {
    var r := MlsSpec(ops, normal, areas, cutoff, beta, betaError, cutoffError);
    if r.Ok? {
      RefScaleNonZero(ops, NormaliseBeta(beta));
      MagnitudeIdentity(ops, MaxOf(areas), Centres(Edges()), DensityCurve(ops, areas), cutoff, beta);
    }
  }

  /**
   * The counts over all bins add up to the number of areas inside [2, last edge]: smaller and
   * larger areas are not counted anywhere.
   */
  lemma CountsCoverSpan(areas: seq<real>)
    ensures SumNat(Histogram(areas, Edges())) == |Filter(areas, SpanTest(Edges()))|
  {
    EdgesIncreasing();
    HistogramTotal(areas, Edges());
  }
}

/**
 * The uncertainty of the magnitude: a Monte-Carlo simulation over the cutoff and the exponent,
 * each drawn from a Gaussian whose mean and deviation are those of an evenly spaced interval.
 */
module Uncertainty {
  import opened Wrappers
  import opened Seqs
  import opened Numeric
  import opened PowerLawFit

  /** Number of simulated magnitudes. */
  const Trials: nat := 10000
  /** Number of points in each interval whose mean and deviation parameterise a Gaussian. */
  const IntervalPoints: nat := 500
  /** Smallest cutoff the interval may start at (the first bin edge). */
  const MinCutoff: real := 2.0

  /** The reported uncertainty: '?' when an error parameter is missing, else a deviation. */
  datatype Spread = Unavailable | Estimated(value: real)

  /** The mean and standard deviation that parameterise one Gaussian. */
  datatype Proxy = Proxy(mean: real, std: real)

  /**
   * Draws from normal(mean, std). Draw k of the whole run is the k-th call: trial t draws the
   * cutoff as number 2t and the exponent as number 2t + 1.
   */
  type Sampler = (nat, real, real) -> real

  /** Draw k of the run, from the Gaussian with the proxy's mean and deviation. */
  function Draw(normal: Sampler, k: nat, p: Proxy): real
  {
    normal(k, p.mean, p.std)
  }

  /** np.mean and np.std of np.linspace(lo, hi, 500); the mean is always the midpoint. */
  function IntervalProxy(ops: Ops, lo: real, hi: real): (p: Proxy)
    ensures p.mean == (lo + hi) / 2.0
  {
    var s := Linspace(lo, hi, IntervalPoints);
    LinspaceMean(ops, lo, hi, IntervalPoints);
    Proxy(Mean(ops, s), Std(ops, s))
  }

  /** The cutoff interval [max(cutoff - error, 2), cutoff + error]. */
  function CutoffBounds(cutoff: real, cutoffError: real): (b: (real, real))
    ensures b.0 >= MinCutoff && b.0 >= cutoff - cutoffError
    ensures b.0 == MinCutoff || b.0 == cutoff - cutoffError
    ensures b.1 == cutoff + cutoffError
  {
    (Max(cutoff - cutoffError, MinCutoff), cutoff + cutoffError)
  }

  /** The Gaussian for the exponent: centred on the normalised exponent. */
  function BetaProxy(ops: Ops, betaStored: real, betaError: real): (p: Proxy)
    ensures p.mean == betaStored
  {
    IntervalProxy(ops, betaStored - betaError, betaStored + betaError)
  }

  /**
   * The Gaussian for the cutoff: centred on the cutoff unless the interval is clipped at 2,
   * in which case the centre moves up.
   */
  function CutoffProxy(ops: Ops, cutoff: real, cutoffError: real): (p: Proxy)
    ensures cutoff - cutoffError >= MinCutoff ==> p.mean == cutoff
    ensures cutoff - cutoffError < MinCutoff ==> p.mean == (MinCutoff + cutoff + cutoffError) / 2.0
  {
    var b := CutoffBounds(cutoff, cutoffError);
    IntervalProxy(ops, b.0, b.1)
  }

  /**
   * One simulated magnitude: the magnitude formula with the simulated cutoff (through midx)
   * and the simulated exponent (through ac and the power), but the nominal midy.
   */
  function TrialValue(ops: Ops, normal: Sampler, t: nat, midy: real, maxArea: real,
                      cp: Proxy, bp: Proxy): real
  {
    var cutoffSim := Draw(normal, 2 * t, cp);
    var betaSim := Draw(normal, 2 * t + 1, bp);
    MagnitudeAt(ops, midy, MidX(ops, maxArea, cutoffSim), betaSim)
  }

  /** The first n simulated magnitudes, before the infinite ones are dropped. */
  function TrialValues(ops: Ops, normal: Sampler, midy: real, maxArea: real,
                       cp: Proxy, bp: Proxy, n: nat): (v: seq<real>)
    ensures |v| == n
  {
    seq(n, t requires 0 <= t < n => TrialValue(ops, normal, t, midy, maxArea, cp, bp))
  }

  /** A simulated magnitude is kept unless it is infinite. */
  function KeepTrial(ops: Ops): real -> bool
  {
    x => !IsInf(ops, x)
  }

  /** The finite simulated magnitudes, in the order they were drawn (mls_array). */
  function Simulated(ops: Ops, normal: Sampler, midy: real, maxArea: real,
                     cp: Proxy, bp: Proxy): seq<real>
  {
    Filter(TrialValues(ops, normal, midy, maxArea, cp, bp, Trials), KeepTrial(ops))
  }

  /**
   * Trial t raises ZeroDivisionError: the draws are plain Python floats, so a zero cutoff with a
   * negative exponent, or a reference power that underflows to 0.0, aborts the whole calculation.
   */
  predicate TrialRaises(ops: Ops, normal: Sampler, t: nat, cp: Proxy, bp: Proxy)
  {
    var cutoffSim := Draw(normal, 2 * t, cp);
    var betaSim := Draw(normal, 2 * t + 1, bp);
    ZeroToNegativePower(cutoffSim, betaSim) || RefScaleRaises(ops, betaSim)
  }

  /**
   * The first n trials in order: Err from the first one that raises on, otherwise the finite
   * magnitudes so far (mls_array after n passes).
   */
  function Run(ops: Ops, normal: Sampler, midy: real, maxArea: real, cp: Proxy, bp: Proxy, n: nat)
    : Result<seq<real>, MlsError>
  {
    if n == 0 then Ok([])
    else
      var prev := Run(ops, normal, midy, maxArea, cp, bp, n - 1);
      if prev.Err? then prev
      else if TrialRaises(ops, normal, n - 1, cp, bp) then Err(ZeroDivision)
      else
        var v := TrialValue(ops, normal, n - 1, midy, maxArea, cp, bp);
        Ok(prev.value + if KeepTrial(ops)(v) then [v] else [])
  }

  /** The outcome of all 10000 trials. */
  function Simulation(ops: Ops, normal: Sampler, midy: real, maxArea: real,
                      cp: Proxy, bp: Proxy): Result<seq<real>, MlsError>
  {
    Run(ops, normal, midy, maxArea, cp, bp, Trials)
  }

  /** A trial that does not raise appends its value when it is finite. */
  lemma RunStep(ops: Ops, normal: Sampler, midy: real, maxArea: real, cp: Proxy, bp: Proxy,
                t: nat, a: seq<real>)
    requires Run(ops, normal, midy, maxArea, cp, bp, t) == Ok(a)
    requires !TrialRaises(ops, normal, t, cp, bp)
    ensures var v := TrialValue(ops, normal, t, midy, maxArea, cp, bp);
            Run(ops, normal, midy, maxArea, cp, bp, t + 1) == Ok(a + if !IsInf(ops, v) then [v] else [])
  {
  }

  /** A trial that raises ends the whole simulation with ZeroDivisionError. */
  lemma RunRaises(ops: Ops, normal: Sampler, midy: real, maxArea: real, cp: Proxy, bp: Proxy,
                  t: nat, a: seq<real>)
    requires t < Trials && Run(ops, normal, midy, maxArea, cp, bp, t) == Ok(a)
    requires TrialRaises(ops, normal, t, cp, bp)
    ensures Simulation(ops, normal, midy, maxArea, cp, bp) == Err(ZeroDivision)
  {
    assert Run(ops, normal, midy, maxArea, cp, bp, t + 1) == Err(ZeroDivision);
    RunStaysFailed(ops, normal, midy, maxArea, cp, bp, t + 1, Trials);
  }

  /** Once a trial has raised, later trials never run. */
  lemma {:induction false} RunStaysFailed(ops: Ops, normal: Sampler, midy: real, maxArea: real,
                                         cp: Proxy, bp: Proxy, k: nat, n: nat)
    requires k <= n && Run(ops, normal, midy, maxArea, cp, bp, k).Err?
    ensures Run(ops, normal, midy, maxArea, cp, bp, n) == Run(ops, normal, midy, maxArea, cp, bp, k)
    decreases n - k
  {
    if k < n {
      RunStaysFailed(ops, normal, midy, maxArea, cp, bp, k, n - 1);
    }
  }

  /** The n trials fail, with ZeroDivisionError, exactly when one of them raises. */
  lemma {:induction false} RunFailsIff(ops: Ops, normal: Sampler, midy: real, maxArea: real,
                                       cp: Proxy, bp: Proxy, n: nat)
    ensures var r := Run(ops, normal, midy, maxArea, cp, bp, n);
            (r.Err? <==> exists t :: 0 <= t < n && TrialRaises(ops, normal, t, cp, bp)) &&
            (r.Err? ==> r.error == ZeroDivision)
  {
    if n > 0 {
      RunFailsIff(ops, normal, midy, maxArea, cp, bp, n - 1);
      if Run(ops, normal, midy, maxArea, cp, bp, n - 1).Err? {
        var t :| 0 <= t < n - 1 && TrialRaises(ops, normal, t, cp, bp);
        assert 0 <= t < n && TrialRaises(ops, normal, t, cp, bp);
      } else if TrialRaises(ops, normal, n - 1, cp, bp) {
        assert 0 <= n - 1 < n && TrialRaises(ops, normal, n - 1, cp, bp);
      } else {
        forall t | 0 <= t < n ensures !TrialRaises(ops, normal, t, cp, bp) {
          if t < n - 1 {
            assert !(0 <= t < n - 1 && TrialRaises(ops, normal, t, cp, bp));
          }
        }
      }
    }
  }

  /** When none of the n trials raises, they yield the finite trial values in the order drawn. */
  lemma {:induction false} RunValue(ops: Ops, normal: Sampler, midy: real, maxArea: real,
                                    cp: Proxy, bp: Proxy, n: nat)
    ensures var r := Run(ops, normal, midy, maxArea, cp, bp, n);
            r.Ok? ==> r.value == Filter(TrialValues(ops, normal, midy, maxArea, cp, bp, n), KeepTrial(ops))
  {
    if n > 0 && Run(ops, normal, midy, maxArea, cp, bp, n).Ok? {
      var prev := Run(ops, normal, midy, maxArea, cp, bp, n - 1);
      var vs := TrialValues(ops, normal, midy, maxArea, cp, bp, n - 1);
      var v := TrialValue(ops, normal, n - 1, midy, maxArea, cp, bp);
      assert prev.Ok? && !TrialRaises(ops, normal, n - 1, cp, bp);
      assert Run(ops, normal, midy, maxArea, cp, bp, n).value
             == prev.value + if KeepTrial(ops)(v) then [v] else [];
      RunValue(ops, normal, midy, maxArea, cp, bp, n - 1);
      TrialValuesSnoc(ops, normal, midy, maxArea, cp, bp, n - 1);
      FilterSnoc(vs, v, KeepTrial(ops));
    }
  }

  /**
   * The simulation raises exactly when some trial divides by zero; otherwise it is mls_array,
   * at most one finite magnitude per trial.
   */
  lemma SimulationOutcome(ops: Ops, normal: Sampler, midy: real, maxArea: real, cp: Proxy, bp: Proxy)
    ensures var r := Simulation(ops, normal, midy, maxArea, cp, bp);
            (r.Err? <==> exists t :: 0 <= t < Trials && TrialRaises(ops, normal, t, cp, bp)) &&
            (r.Err? ==> r.error == ZeroDivision) &&
            (r.Ok? ==> r.value == Simulated(ops, normal, midy, maxArea, cp, bp) && |r.value| <= Trials &&
                       forall i :: 0 <= i < |r.value| ==> !IsInf(ops, r.value[i]))
  {
    RunFailsIff(ops, normal, midy, maxArea, cp, bp, Trials);
    RunValue(ops, normal, midy, maxArea, cp, bp, Trials);
    SimulatedFinite(ops, normal, midy, maxArea, cp, bp);
  }

  /**
   * One pass of the simulation loop: draw a cutoff and an exponent and compute the magnitude
   * they give, or None where Python raises ZeroDivisionError.
   */
  method OneTrial(ops: Ops, normal: Sampler, t: nat, y0: real, midy: real, maxArea: real,
                  cp: Proxy, bp: Proxy) returns (mlsSim: Option<real>)
    ensures mlsSim.None? <==> TrialRaises(ops, normal, t, cp, bp)
    ensures mlsSim.Some? ==> mlsSim.value == TrialValue(ops, normal, t, midy, maxArea, cp, bp)
  {
    var cutoffSim := Draw(normal, 2 * t, cp);
    var betaSim := Draw(normal, 2 * t + 1, bp);
    if cutoffSim == 0.0 && betaSim < 0.0 {
      return None;
    }
    var constantSim := ScaleConstant(ops, y0, cutoffSim, betaSim);  // computed but never used
    var midxSim := MidX(ops, maxArea, cutoffSim);
    var refCurve := CurveAt(ops, RefCount, RefMidx, betaSim);
    if refCurve == 0.0 {
      return None;
    }
    var acSim := RefScale(ops, betaSim);
    mlsSim := Some(Log10(ops, Div(ops, midy, CurveAt(ops, acSim, midxSim, betaSim))));
  }

  /**
   * The simulation loop, appending every finite draw to mls_array; a trial that divides by
   * zero in Python floats ends the calculation with ZeroDivisionError.
   */
  method MonteCarlo(ops: Ops, normal: Sampler, y0: real, midy: real, maxArea: real,
                    cp: Proxy, bp: Proxy) returns (r: Result<seq<real>, MlsError>)
    ensures r == Simulation(ops, normal, midy, maxArea, cp, bp)
  {
    var mlsArray := [];
    for t := 0 to Trials
      invariant Run(ops, normal, midy, maxArea, cp, bp, t) == Ok(mlsArray)
    {
      var mlsSim := OneTrial(ops, normal, t, y0, midy, maxArea, cp, bp);
      if mlsSim.None? {
        RunRaises(ops, normal, midy, maxArea, cp, bp, t, mlsArray);
        return Err(ZeroDivision);
      }
      RunStep(ops, normal, midy, maxArea, cp, bp, t, mlsArray);
      if !IsInf(ops, mlsSim.value) {
        mlsArray := mlsArray + [mlsSim.value];
      } else {
        assert mlsArray + [] == mlsArray;
      }
    }
    r := Ok(mlsArray);
  }


  /** At most one magnitude per trial is kept, and none of them is infinite. */
  lemma SimulatedFinite(ops: Ops, normal: Sampler, midy: real, maxArea: real, cp: Proxy, bp: Proxy)
    ensures var s := Simulated(ops, normal, midy, maxArea, cp, bp);
            |s| <= Trials && forall i :: 0 <= i < |s| ==> !IsInf(ops, s[i])
  {
    var s := Simulated(ops, normal, midy, maxArea, cp, bp);
    forall i | 0 <= i < |s| ensures !IsInf(ops, s[i]) {
      assert s[i] in s;
      assert KeepTrial(ops)(s[i]);
    }
  }

  lemma TrialValuesSnoc(ops: Ops, normal: Sampler, midy: real, maxArea: real,
                        cp: Proxy, bp: Proxy, t: nat)
    ensures TrialValues(ops, normal, midy, maxArea, cp, bp, t + 1)
            == TrialValues(ops, normal, midy, maxArea, cp, bp, t)
               + [TrialValue(ops, normal, t, midy, maxArea, cp, bp)]
  {
  }

  /**
   * error: the deviation of the simulated magnitudes, or '?' unless both errors are given; only
   * the simulation can raise.
   */
  function UncertaintyOf(ops: Ops, normal: Sampler, fit: Fit, maxArea: real, cutoff: real,
                         betaError: Option<real>, cutoffError: Option<real>): (s: Result<Spread, MlsError>)
    ensures betaError.None? || cutoffError.None? ==> s == Ok(Unavailable)
    ensures s.Ok? ==> (s.value.Estimated? <==> betaError.Some? && cutoffError.Some?)
    ensures s.Err? ==> s.error == ZeroDivision
  {
    if betaError.Some? && cutoffError.Some? then
      var bp := BetaProxy(ops, fit.beta, betaError.value);
      var cp := CutoffProxy(ops, cutoff, cutoffError.value);
      SimulationOutcome(ops, normal, fit.midy, maxArea, cp, bp);
      match Simulation(ops, normal, fit.midy, maxArea, cp, bp)
      case Err(e) => Err(e)
      case Ok(mlsArray) => Ok(Estimated(Std(ops, mlsArray)))
    else
      Ok(Unavailable)
  }

  /** A trial drawn exactly at the nominal cutoff and exponent reproduces the point estimate. */
  lemma TrialAtNominal(ops: Ops, normal: Sampler, t: nat, maxArea: real, centres: seq<real>,
                       density: seq<real>, cutoff: real, beta: real, cp: Proxy, bp: Proxy)
    requires |centres| > 0 && |density| == |centres|
    requires Draw(normal, 2 * t, cp) == cutoff
    requires Draw(normal, 2 * t + 1, bp) == FitPowerLaw(ops, maxArea, centres, density, cutoff, beta).beta
    ensures var f := FitPowerLaw(ops, maxArea, centres, density, cutoff, beta);
            TrialValue(ops, normal, t, f.midy, maxArea, cp, bp) == f.magnitude
  {
  }

  /** With zero error the interval collapses to one point, whose deviation is sqrt(0). */
  lemma CollapsedProxy(ops: Ops, c: real)
    requires ops.sqrt(0.0) == 0.0
    ensures IntervalProxy(ops, c, c) == Proxy(c, 0.0)
  {
    var s := Linspace(c, c, IntervalPoints);
    assert forall i :: 0 <= i < |s| ==> s[i] == c;
    ConstantStd(ops, s, c);
  }

  /**
   * With both errors zero, a cutoff of at least 2, a sampler that returns the mean when the
   * deviation is zero, a reference power that does not underflow and a finite point estimate,
   * no trial raises, the simulation keeps all 10000 trials, each equal to the point estimate,
   * and the reported uncertainty is exactly 0 when sqrt(0) is 0.
   */
  lemma ZeroErrorsGiveZeroSpread(ops: Ops, normal: Sampler, maxArea: real, centres: seq<real>,
                                 density: seq<real>, cutoff: real, beta: real)
    requires |centres| > 0 && |density| == |centres|
    requires cutoff >= MinCutoff
    requires ops.sqrt(0.0) == 0.0
    requires forall k: nat, m: real :: normal(k, m, 0.0) == m
    requires !RefScaleRaises(ops, FitPowerLaw(ops, maxArea, centres, density, cutoff, beta).beta)
    requires !IsInf(ops, FitPowerLaw(ops, maxArea, centres, density, cutoff, beta).magnitude)
    ensures var f := FitPowerLaw(ops, maxArea, centres, density, cutoff, beta);
            Simulation(ops, normal, f.midy, maxArea, CutoffProxy(ops, cutoff, 0.0), BetaProxy(ops, f.beta, 0.0))
            == Ok(seq(Trials, t => f.magnitude))
    ensures var f := FitPowerLaw(ops, maxArea, centres, density, cutoff, beta);
            UncertaintyOf(ops, normal, f, maxArea, cutoff, Some(0.0), Some(0.0)) == Ok(Estimated(0.0))
  {
    var f := FitPowerLaw(ops, maxArea, centres, density, cutoff, beta);
    var bp := BetaProxy(ops, f.beta, 0.0);
    var cp := CutoffProxy(ops, cutoff, 0.0);
    CollapsedProxy(ops, f.beta);
    CollapsedProxy(ops, cutoff);
    assert bp == Proxy(f.beta, 0.0) && cp == Proxy(cutoff, 0.0);
    var v := TrialValues(ops, normal, f.midy, maxArea, cp, bp, Trials);
    forall t | 0 <= t < Trials ensures v[t] == f.magnitude {
      TrialAtNominal(ops, normal, t, maxArea, centres, density, cutoff, beta, cp, bp);
    }
    forall t | 0 <= t < Trials ensures !TrialRaises(ops, normal, t, cp, bp) {
      assert Draw(normal, 2 * t, cp) == cutoff;
      assert Draw(normal, 2 * t + 1, bp) == f.beta;
    }
    SimulationOutcome(ops, normal, f.midy, maxArea, cp, bp);
    FilterKeepsAll(v, KeepTrial(ops));
    assert Simulation(ops, normal, f.midy, maxArea, cp, bp) == Ok(v);
    assert v == seq(Trials, t => f.magnitude);
    ConstantStd(ops, v, f.magnitude);
  }
}

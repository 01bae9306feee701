/**
 * estimate_powerlaw_parameters: the cutoff and exponent of a power-law tail, chosen among 50
 * candidate cutoffs by a Kolmogorov-Smirnov score, with a percentile / regression fallback and
 * heuristic error estimates.
 */
module PowerlawEstimator {
  import opened Wrappers
  import opened Seqs
  import opened Numeric
  import opened Binning

  /** Number of candidate cutoffs tried. */
  const NumCandidates: nat := 50
  /** Fewest tail observations a candidate needs. */
  const MinTail: nat := 50
  /** Points on which the two distribution functions are compared. */
  const KsPoints: nat := 1000
  /** Edges of the logarithmic histogram used by the fallback. */
  const FallbackEdges: nat := 30
  /** More populated fallback bins than this are needed for a regression. */
  const MinPopulatedBins: nat := 5
  /** Exponent used when the regression has too few points. */
  const DefaultBeta: real := -2.3

  /** What makes the estimator raise: a percentile of no data, or `max` of an empty tail. */
  datatype EstimateError = EmptySample | EmptyTail

  /** The four returned values, in the order of the source's tuple. */
  datatype Estimate = Estimate(cutoff: real, beta: real, cutoffError: real, betaError: real)

  /** A candidate cutoff that passed the tail-size test, with its exponent and score. */
  datatype Candidate = Candidate(cutoff: real, beta: real, ks: real)

  function Positive(): real -> bool { x => x > 0.0 }
  function AtLeast(c: real): real -> bool { x => x >= c }
  function AtMost(x: real): real -> bool { y => y <= x }

  /** `np.sort(areas[areas > 0])`: the positive areas in ascending order. */
  function PositiveSorted(areas: seq<real>): (r: seq<real>)
    ensures Sorted(r)
    ensures forall i :: 0 <= i < |r| ==> r[i] > 0.0
    ensures forall x :: multiset(r)[x] == if x > 0.0 then multiset(areas)[x] else 0
  {
    FilterMultiset(areas, Positive());
    var r := SortReals(Filter(areas, Positive()));
    forall i | 0 <= i < |r| ensures r[i] > 0.0 {
      assert r[i] in multiset(r);
    }
    r
  }

  /** `areas[areas >= c]`: the tail at or above a cutoff, in sorted order. */
  function Tail(sorted: seq<real>, c: real): (t: seq<real>)
    ensures |t| <= |sorted|
    ensures forall x :: x in t <==> x in sorted && x >= c
  {
    Filter(sorted, AtLeast(c))
  }

  /** `np.all(data > 0)`. */
  predicate AllPositive(data: seq<real>)
  {
    forall i :: 0 <= i < |data| ==> data[i] > 0.0
  }

  /** Σ ln(x / cutoff) over the tail. */
  function LogRatioSum(ops: Ops, data: seq<real>, c: real): real
  {
    Sum(seq(|data|, i requires 0 <= i < |data| => Ln(ops, Div(ops, data[i], c))))
  }

  /** The maximum-likelihood exponent 1 + n / Σ ln(x / cutoff), made negative. */
  function MleBeta(ops: Ops, data: seq<real>, c: real): (b: real)
    ensures b <= 0.0
    ensures b == 1.0 + Div(ops, |data| as real, LogRatioSum(ops, data, c))
            || b == -(1.0 + Div(ops, |data| as real, LogRatioSum(ops, data, c)))
  {
    -Abs(1.0 + Div(ops, |data| as real, LogRatioSum(ops, data, c)))
  }

  /**
   * `np.searchsorted(data, x, side='right') / len(data)`: the fraction of the tail at or below x.
   * On sorted data the count of values <= x is the insertion point searchsorted returns
   * (see `CountIsInsertionPoint`).
   */
  function EmpiricalCdf(data: seq<real>, x: real): (p: real)
    requires |data| > 0
    ensures 0.0 <= p <= 1.0
  {
    var k := |Filter(data, AtMost(x))|;
    assert k <= |data|;
    assert (k as real) / (|data| as real) <= 1.0 by {
      DivMonotone(k as real, |data| as real, |data| as real);
      SelfDivision(|data| as real);
    }
    k as real / |data| as real
  }

  /** On sorted data the values <= x are exactly a prefix whose length is the count. */
  lemma {:induction false} CountIsInsertionPoint(data: seq<real>, x: real)
    requires Sorted(data)
    ensures var k := |Filter(data, AtMost(x))|;
            k <= |data| &&
            (forall i :: 0 <= i < k ==> data[i] <= x) &&
            (forall i :: k <= i < |data| ==> data[i] > x)
  {
    if data != [] {
      var rest := data[1..];
      assert Sorted(rest);
      CountIsInsertionPoint(rest, x);
    }
  }

  /** The empirical distribution function never decreases. */
  lemma EmpiricalCdfMonotone(data: seq<real>, x: real, y: real)
    requires |data| > 0 && x <= y
    ensures EmpiricalCdf(data, x) <= EmpiricalCdf(data, y)
  {
    FilterMonotone(data, AtMost(x), AtMost(y));
    var n := |data| as real;
    var a := |Filter(data, AtMost(x))| as real;
    var b := |Filter(data, AtMost(y))| as real;
    DivMonotone(a, b, n);
  }

  /** At or beyond the largest value the empirical distribution function is 1. */
  lemma EmpiricalCdfTop(data: seq<real>, x: real)
    requires |data| > 0 && x >= MaxOf(data)
    ensures EmpiricalCdf(data, x) == 1.0
  {
    forall i | 0 <= i < |data| ensures AtMost(x)(data[i]) {
      assert data[i] <= MaxOf(data);
    }
    FilterKeepsAll(data, AtMost(x));
    assert |Filter(data, AtMost(x))| == |data|;
    SelfDivision(|data| as real);
  }

  /** 1 - (x / cutoff)^(-alpha): the theoretical distribution function. */
  function TheoryCdf(ops: Ops, x: real, c: real, alpha: real): real
  {
    1.0 - Pow(ops, Div(ops, x, c), -alpha)
  }

  /** |theory - empirical| on the 1000 points np.linspace(cutoff, max(data), 1000). */
  function KsGaps(ops: Ops, data: seq<real>, c: real, beta: real): (g: seq<real>)
    requires |data| > 0
    ensures |g| == KsPoints
    ensures forall i :: 0 <= i < |g| ==> g[i] >= 0.0
  {
    var xs := Linspace(c, MaxOf(data), KsPoints);
    var alpha := Abs(beta) - 1.0;
    seq(KsPoints, i requires 0 <= i < KsPoints =>
      Abs(TheoryCdf(ops, xs[i], c, alpha) - EmpiricalCdf(data, xs[i])))
  }

  /** The KS statistic: the largest gap, hence never negative. */
  function KsScore(ops: Ops, data: seq<real>, c: real, beta: real): (ks: real)
    requires |data| > 0
    ensures ks >= 0.0
    ensures ks in KsGaps(ops, data, c, beta)
    ensures forall i :: 0 <= i < KsPoints ==> KsGaps(ops, data, c, beta)[i] <= ks
  {
    var g := KsGaps(ops, data, c, beta);
    assert g[0] >= 0.0;
    MaxOf(g)
  }

  /** A positive sample has a positive tail: every value of the tail comes from the sample. */
  lemma TailPositive(sorted: seq<real>, c: real)
    ensures AllPositive(sorted) ==> AllPositive(Tail(sorted, c))
  {
    if AllPositive(sorted) {
      var t := Tail(sorted, c);
      forall i | 0 <= i < |t| ensures t[i] > 0.0 {
        assert t[i] in t;
        var j :| 0 <= j < |sorted| && sorted[j] == t[i];
      }
    }
  }

  /** One pass of the candidate loop: None when the candidate is skipped. */
  function Evaluate(ops: Ops, sorted: seq<real>, c: real): (e: Option<Candidate>)
    ensures e.Some? ==> |Tail(sorted, c)| >= MinTail && e.value.cutoff == c
    ensures e.Some? ==> e.value.beta <= 0.0 && e.value.ks >= 0.0
    ensures |Tail(sorted, c)| >= MinTail && AllPositive(sorted) ==> e.Some?
  {
    var data := Tail(sorted, c);
    TailPositive(sorted, c);
    if |data| < MinTail then None
    else if !AllPositive(data) then None
    else
      var b := MleBeta(ops, data, c);
      Some(Candidate(c, b, KsScore(ops, data, c, b)))
  }

  /** The outcome of every candidate, in order. */
  function Evaluations(ops: Ops, sorted: seq<real>, cs: seq<real>): (es: seq<Option<Candidate>>)
    ensures |es| == |cs|
  {
    seq(|cs|, i requires 0 <= i < |cs| => Evaluate(ops, sorted, cs[i]))
  }

  /**
   * The index the loop settles on: a candidate replaces the best so far only with a strictly
   * smaller score, so it is the first qualifying candidate of least score, or None when no
   * candidate qualifies.
   */
  function Select(es: seq<Option<Candidate>>): (k: Option<nat>)
    ensures k.None? <==> forall j :: 0 <= j < |es| ==> es[j].None?
    ensures k.Some? ==> k.value < |es| && es[k.value].Some?
    ensures k.Some? ==> forall j :: 0 <= j < |es| && es[j].Some? ==>
              es[k.value].value.ks <= es[j].value.ks
    ensures k.Some? ==> forall j :: 0 <= j < k.value && es[j].Some? ==>
              es[k.value].value.ks < es[j].value.ks
  {
    if es == [] then None
    else
      var n := |es| - 1;
      var prev := Select(es[..n]);
      assert forall j :: 0 <= j < n ==> es[..n][j] == es[j];
      if es[n].Some? && (prev.None? || es[n].value.ks < es[prev.value].value.ks) then Some(n)
      else prev
  }

  /** The candidates np.linspace(lo, hi, 50). */
  function Candidates(lo: real, hi: real): (cs: seq<real>)
    ensures |cs| == NumCandidates && cs[0] == lo && cs[NumCandidates - 1] == hi
    ensures lo <= hi ==> Sorted(cs)
  {
    Linspace(lo, hi, NumCandidates)
  }

  /** The search range: the one given, else the 10th and 50th percentiles. */
  function SearchRange(ops: Ops, sorted: seq<real>, xminRange: Option<(real, real)>): (real, real)
  {
    if xminRange.Some? then xminRange.value
    else (Percentile(ops, sorted, 10.0), Percentile(ops, sorted, 50.0))
  }

  /** Every bin as its (centre, count) pair, in bin order. */
  function Bins(hist: seq<nat>, centres: seq<real>): (b: seq<(real, nat)>)
    requires |hist| == |centres|
    ensures |b| == |hist|
  {
    seq(|hist|, i requires 0 <= i < |hist| => (centres[i], hist[i]))
  }

  /** The mask `hist > 0` applied to a (centre, count) pair. */
  function HasCount(): ((real, nat)) -> bool { (q: (real, nat)) => q.1 > 0 }

  /**
   * `bin_centers[mask]` and `hist[mask]` with `mask = hist > 0`, taken pairwise: exactly the bins
   * with a non-zero count, each with its own centre, in bin order.
   */
  function Populated(hist: seq<nat>, centres: seq<real>): (p: seq<(real, nat)>)
    requires |hist| == |centres|
    ensures p == Filter(Bins(hist, centres), HasCount())
    ensures |p| <= |hist|
    ensures forall i :: 0 <= i < |p| ==> p[i].1 > 0
    ensures forall i :: 0 <= i < |hist| && hist[i] > 0 ==> (centres[i], hist[i]) in p
    ensures (forall i :: 0 <= i < |hist| ==> hist[i] > 0) ==> |p| == |hist|
    ensures (forall i :: 0 <= i < |hist| ==> hist[i] == 0) ==> p == []
  {
    if hist == [] then []
    else
      var rest := Populated(hist[1..], centres[1..]);
      var all := Bins(hist, centres);
      assert all[1..] == Bins(hist[1..], centres[1..]);
      assert forall i :: 0 <= i < |hist| ==> all[i] == (centres[i], hist[i]);
      if hist[0] > 0 then [(centres[0], hist[0])] + rest else rest
  }

  /** log10 of the populated centres (x_fit). */
  function LogCentres(ops: Ops, pts: seq<(real, nat)>): (xs: seq<real>)
    ensures |xs| == |pts|
  {
    seq(|pts|, i requires 0 <= i < |pts| => Log10(ops, pts[i].0))
  }

  /** log10 of the populated counts (y_fit). */
  function LogCounts(ops: Ops, pts: seq<(real, nat)>): (ys: seq<real>)
    ensures |ys| == |pts|
  {
    seq(|pts|, i requires 0 <= i < |pts| => Log10(ops, pts[i].1 as real))
  }

  /** The populated bins of the fallback's 30-edge logarithmic histogram of the tail. */
  function FallbackPoints(ops: Ops, data: seq<real>, c: real): seq<(real, nat)>
    requires |data| > 0
  {
    var bins := LogEdges(ops, c, MaxOf(data));
    Populated(Histogram(data, bins), Centres(bins))
  }

  /** np.logspace(log10(lo), log10(hi), 30). */
  function LogEdges(ops: Ops, lo: real, hi: real): (e: seq<real>)
    ensures |e| == FallbackEdges
  {
    var exps := Linspace(Log10(ops, lo), Log10(ops, hi), FallbackEdges);
    seq(FallbackEdges, i requires 0 <= i < FallbackEdges => Exp10(ops, exps[i]))
  }

  /**
   * The exponent of the fallback: the slope of log10(count) against log10(centre) over the
   * populated bins of a 30-edge logarithmic histogram of the tail, or -2.3 when at most five
   * bins are populated. The slope is not made negative.
   */
  function FallbackBeta(ops: Ops, data: seq<real>, c: real): (b: real)
    requires |data| > 0
    ensures var pts := FallbackPoints(ops, data, c);
            (|pts| <= MinPopulatedBins ==> b == DefaultBeta) &&
            (|pts| > MinPopulatedBins ==> b == Slope(ops, LogCentres(ops, pts), LogCounts(ops, pts)))
  {
    var pts := FallbackPoints(ops, data, c);
    if |pts| > MinPopulatedBins then Slope(ops, LogCentres(ops, pts), LogCounts(ops, pts))
    else DefaultBeta
  }

  /** The fallback used when no candidate qualified: the 25th percentile and FallbackBeta. */
  function Fallback(ops: Ops, sorted: seq<real>): (r: Result<(real, real), EstimateError>)
    ensures r.Ok? ==> r.value.0 == Percentile(ops, sorted, 25.0)
    ensures r.Err? <==> |Tail(sorted, Percentile(ops, sorted, 25.0))| == 0
  {
    var c := Percentile(ops, sorted, 25.0);
    var data := Tail(sorted, c);
    if |data| == 0 then Err(EmptyTail)
    else Ok((c, FallbackBeta(ops, data, c)))
  }

  /** The returned errors: |beta - 1| / sqrt(tail size) and 10% of the cutoff. */
  function WithErrors(ops: Ops, sorted: seq<real>, c: real, b: real): (e: Estimate)
    ensures e.cutoff == c && e.beta == b && e.cutoffError == 0.1 * c
    ensures Sqrt(ops, |Tail(sorted, c)| as real) > 0.0 ==> e.betaError >= 0.0
  {
    var n := |Tail(sorted, c)|;
    var betaError := Div(ops, Abs(b - 1.0), Sqrt(ops, n as real));
    Estimate(c, b, c * 0.1, betaError)
  }

  /** The positive sample is empty exactly when no area is positive. */
  lemma NoPositiveAreas(areas: seq<real>)
    ensures |PositiveSorted(areas)| == 0 <==> forall i :: 0 <= i < |areas| ==> areas[i] <= 0.0
  {
    var sorted := PositiveSorted(areas);
    if |sorted| == 0 {
      forall i | 0 <= i < |areas| ensures areas[i] <= 0.0 {
        assert areas[i] in multiset(areas);
      }
    } else {
      assert sorted[0] in multiset(sorted);
      assert multiset(areas)[sorted[0]] > 0;
      assert sorted[0] in areas;
    }
  }

  /**
   * The outcome of the candidate loop: the cutoff and exponent of the selected candidate, or
   * None when every candidate was skipped.
   */
  function LoopResult(ops: Ops, sorted: seq<real>, cs: seq<real>): (b: Option<(real, real)>)
    ensures b.Some? <==> exists j :: 0 <= j < |cs| && Evaluate(ops, sorted, cs[j]).Some?
  {
    var es := Evaluations(ops, sorted, cs);
    var k := Select(es);
    if k.Some? then Some((cs[k.value], es[k.value].value.beta))
    else
      assert forall j :: 0 <= j < |cs| ==> es[j] == Evaluate(ops, sorted, cs[j]);
      None
  }

  /** The selected cutoff and exponent, or the fallback's when no candidate qualified. */
  function Chosen(ops: Ops, sorted: seq<real>, cs: seq<real>): Result<(real, real), EstimateError>
  {
    var best := LoopResult(ops, sorted, cs);
    if best.Some? then Ok(best.value) else Fallback(ops, sorted)
  }

  /** The whole estimator as a function of the sample and the optional search range. */
  function EstimateSpec(ops: Ops, areas: seq<real>, xminRange: Option<(real, real)>)
    : Result<Estimate, EstimateError>
  {
    var sorted := PositiveSorted(areas);
    if |sorted| == 0 then Err(EmptySample)
    else
      var range := SearchRange(ops, sorted, xminRange);
      match Chosen(ops, sorted, Candidates(range.0, range.1))
      case Err(e) => Err(e)
      case Ok(p) => Ok(WithErrors(ops, sorted, p.0, p.1))
  }

  /** The estimator step by step: best_ks, best_cutoff and best_beta updated in the loop. */
  method EstimatePowerlawParameters(ops: Ops, areas: seq<real>, xminRange: Option<(real, real)>)
    returns (r: Result<Estimate, EstimateError>)
    ensures r == EstimateSpec(ops, areas, xminRange)
  {
    var sorted := PositiveSorted(areas);
    if |sorted| == 0 {
      return Err(EmptySample);
    }
    var range := SearchRange(ops, sorted, xminRange);
    var cs := Candidates(range.0, range.1);
    var best := CandidateLoop(ops, sorted, cs);
    var bestC: real, bestB: real;
    if best.None? {
      var fb := Fallback(ops, sorted);
      if fb.Err? {
        return Err(fb.error);
      }
      bestC, bestB := fb.value.0, fb.value.1;
    } else {
      bestC, bestB := best.value.0, best.value.1;
    }
    r := Ok(WithErrors(ops, sorted, bestC, bestB));
  }

  /** One more evaluation either becomes the new strict minimum or leaves the choice alone. */
  lemma SelectSnoc(es: seq<Option<Candidate>>, i: nat)
    requires i < |es|
    ensures var prev := Select(es[..i]);
            Select(es[..i + 1]) ==
              if es[i].Some? && (prev.None? || es[i].value.ks < es[prev.value].value.ks) then Some(i)
              else prev
  {
    assert es[..i + 1][..i] == es[..i];
  }

  /**
   * The candidate loop: best_ks starts at infinity (None), and a qualifying candidate replaces
   * best_ks, best_cutoff and best_beta only when its score is strictly smaller.
   */
  method CandidateLoop(ops: Ops, sorted: seq<real>, cs: seq<real>) returns (best: Option<(real, real)>)
    ensures best == LoopResult(ops, sorted, cs)
  {
    ghost var es := Evaluations(ops, sorted, cs);
    var bestKs: Option<real> := None;
    var bestCutoff: Option<real> := None;
    var bestBeta: Option<real> := None;
    for i := 0 to |cs|
      invariant var k := Select(es[..i]);
                if k.None? then bestKs.None? && bestCutoff.None? && bestBeta.None?
                else k.value < i && es[k.value].Some? &&
                     bestKs == Some(es[k.value].value.ks) && bestCutoff == Some(cs[k.value]) &&
                     bestBeta == Some(es[k.value].value.beta)
    {
      SelectSnoc(es, i);
      var cutoff := cs[i];
      var data := Tail(sorted, cutoff);
      if |data| < MinTail {
        assert es[i] == None;
        continue;
      }
      if AllPositive(data) {
        var betaEst := MleBeta(ops, data, cutoff);
        var ks := KsScore(ops, data, cutoff, betaEst);
        assert es[i] == Some(Candidate(cutoff, betaEst, ks));
        if bestKs.None? || ks < bestKs.value {
          bestKs, bestCutoff, bestBeta := Some(ks), Some(cutoff), Some(betaEst);
        }
      } else {
        assert es[i] == None;
      }
    }
    assert es[..|cs|] == es;
    if bestCutoff.None? || bestBeta.None? {
      best := None;
    } else {
      best := Some((bestCutoff.value, bestBeta.value));
    }
  }


  /** The estimator fails on a sample with no positive value, and otherwise only in the fallback. */
  lemma EstimateErrors(ops: Ops, areas: seq<real>, xminRange: Option<(real, real)>)
    ensures var r := EstimateSpec(ops, areas, xminRange);
            (r == Err(EmptySample) <==> forall i :: 0 <= i < |areas| ==> areas[i] <= 0.0) &&
            (r == Err(EmptyTail) ==> Fallback(ops, PositiveSorted(areas)).Err?)
  {
    NoPositiveAreas(areas);
  }

  /**
   * When some candidate qualifies, the loop's outcome is the candidate `Select` picks (the first
   * qualifying candidate of least KS score): its tail holds at least 50 values and its exponent
   * is not positive.
   */
  lemma LoopSelectsCandidate(ops: Ops, sorted: seq<real>, cs: seq<real>, j: nat)
    requires j < |cs| && Evaluate(ops, sorted, cs[j]).Some?
    ensures var es := Evaluations(ops, sorted, cs);
            var k := Select(es);
            k.Some? && k.value < |cs| && es[k.value].Some? &&
            LoopResult(ops, sorted, cs) == Some((cs[k.value], es[k.value].value.beta)) &&
            es[k.value].value.beta <= 0.0 && |Tail(sorted, cs[k.value])| >= MinTail
  {
    var es := Evaluations(ops, sorted, cs);
    assert es[j].Some?;
    var k := Select(es).value;
    assert es[k] == Evaluate(ops, sorted, cs[k]);
  }

  /**
   * When some candidate qualifies, the estimate takes that candidate's cutoff and exponent, and
   * its errors are 10% of the cutoff and |beta - 1| / sqrt(n) over a tail of at least 50 values.
   */
  lemma EstimateFromCandidates(ops: Ops, areas: seq<real>, xminRange: Option<(real, real)>, j: nat)
    requires var sorted := PositiveSorted(areas);
             var range := SearchRange(ops, sorted, xminRange);
             j < NumCandidates && Evaluate(ops, sorted, Candidates(range.0, range.1)[j]).Some?
    ensures var sorted := PositiveSorted(areas);
            var range := SearchRange(ops, sorted, xminRange);
            var b := LoopResult(ops, sorted, Candidates(range.0, range.1));
            var r := EstimateSpec(ops, areas, xminRange);
            b.Some? && r.Ok? && r.value.cutoff == b.value.0 && r.value.beta == b.value.1 &&
            r.value.beta <= 0.0 && |Tail(sorted, r.value.cutoff)| >= MinTail &&
            r.value.cutoffError == 0.1 * r.value.cutoff &&
            (Sqrt(ops, |Tail(sorted, r.value.cutoff)| as real) > 0.0 ==> r.value.betaError >= 0.0)
  {
    var sorted := PositiveSorted(areas);
    var range := SearchRange(ops, sorted, xminRange);
    var cs := Candidates(range.0, range.1);
    LoopSelectsCandidate(ops, sorted, cs, j);
    assert |sorted| > 0 by {
      assert |Tail(sorted, cs[j])| >= MinTail;
    }
  }

  /**
   * When no candidate qualifies, the cutoff is the 25th percentile of the positive sample, and
   * the exponent is -2.3 when at most five bins of the fallback histogram are populated and
   * otherwise the regression slope over the populated bins.
   */
  lemma EstimateFromFallback(ops: Ops, areas: seq<real>, xminRange: Option<(real, real)>)
    requires var sorted := PositiveSorted(areas);
             var range := SearchRange(ops, sorted, xminRange);
             |sorted| > 0 &&
             forall j :: 0 <= j < NumCandidates ==> Evaluate(ops, sorted, Candidates(range.0, range.1)[j]).None?
    ensures var sorted := PositiveSorted(areas);
            var r := EstimateSpec(ops, areas, xminRange);
            var c := Percentile(ops, sorted, 25.0);
            (r.Ok? <==> |Tail(sorted, c)| > 0) &&
            (r.Ok? ==> r.value.cutoff == c && r.value.cutoffError == 0.1 * c &&
                       var pts := FallbackPoints(ops, Tail(sorted, c), c);
                       (|pts| <= MinPopulatedBins ==> r.value.beta == DefaultBeta) &&
                       (|pts| > MinPopulatedBins ==>
                          r.value.beta == Slope(ops, LogCentres(ops, pts), LogCounts(ops, pts))))
  {
    var sorted := PositiveSorted(areas);
    var range := SearchRange(ops, sorted, xminRange);
    assert LoopResult(ops, sorted, Candidates(range.0, range.1)).None?;
  }

  /**
   * A candidate with fewer than 50 tail values is never chosen; one with 50 or more always
   * qualifies, because the sample holds only positive values.
   */
  lemma TailThreshold(ops: Ops, areas: seq<real>, c: real)
    ensures var sorted := PositiveSorted(areas);
            Evaluate(ops, sorted, c).Some? <==> |Tail(sorted, c)| >= MinTail
  {
  }
}

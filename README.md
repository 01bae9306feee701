# Landslide-event magnitude (mLS): a Dafny model

This project models the discrete core of a landslide-magnitude calculator. The calculator
turns a list of landslide areas into an event magnitude mLS, following Tanyas et al. (2018).
It also estimates the two power-law parameters when the user does not supply them.

The model covers:

- **Binning** (`binning.dfy`). There are 120 geometric bin edges, `2·1.2^i`. The model has
  the NumPy histogram counts over them, the bin widths (bin 0 gets the width `edge[0]`, an
  intentional offset), the frequency density `count/width` and the bin centres.
- **Power-law anchoring** (`powerlaw_fit.dfy`). The anchor is the first centre closest to the
  cutoff. The exponent is made non-positive. The scale constant, midx, midy, the reference
  scale `ac` of the Northridge inventory and the magnitude `log10(midy/(ac·midx^β))` follow.
- **Uncertainty** (`uncertainty.dfy`). Two 500-point intervals give Gaussian proxies. The
  Monte-Carlo loop runs 10 000 trials and keeps the non-infinite magnitudes. The result is
  the sentinel `'?'` unless both errors are supplied.
- **`calculate_mls`** (`mls.dfy`) as one method, proved equal to a specification function.
  Lemmas cover the sign invariance, the magnitude identity, the error gating, the anchor and
  the histogram totals.
- **Parameter estimation** (`powerlaw_estimator.dfy`). The sample is filtered to positive
  values and sorted. Fifty candidate cutoffs are tried; one with fewer than 50 tail values is
  skipped. The maximum-likelihood exponent is `−|1 + n/Σ ln(x/cutoff)|`. The empirical CDF is
  "count ≤ x over n" and the KS score is the largest gap. The loop keeps the first candidate
  of least score. If none qualifies, a 25th-percentile fallback gives the cutoff and a
  regression slope or −2.3 gives the exponent. The two error heuristics follow.
- **Web-layer helpers** (`web_app.dfy`). These are `allowed_file`, the `.shp` listing of
  `extract_shapefile`, the `>= 1` area filter, the UTM zone and hemisphere, and the rule that
  fills in only the missing parameters.

Exact arithmetic is stated over `real`. Everything transcendental or IEEE-specific is a
field of the datatype `Numeric.Ops`, and every operation receives it. This covers `**` with a
real exponent, `log10`, `10**x`, `ln`, `sqrt`, `np.percentile`, the `np.polyfit` slope,
`np.isinf` and the value of `a/0.0`. Division is `Numeric.Div`: exact when the divisor is
non-zero, otherwise the abstract `divByZero`, NumPy's inf or nan. The two divisions that
Python performs on plain floats, where a zero divisor raises, are modelled as errors instead
(see below). The random source is a parameter, a `Sampler`
`(k, mean, std) -> real` that returns the k-th normal draw. Trial t draws the cutoff as number
2t and the exponent as number 2t+1.

Points where the code's behaviour is easy to misread:

- The anchor lookup never fails. `np.argmin` always returns an index, so any cutoff, even one
  outside the range of the centres, is matched to its closest centre.
- The estimator takes `(areas, xmin_range)` and returns four values: the cutoff, the exponent,
  the cutoff error and the exponent error. It has no mode argument.
- Non-finite intermediate values do not become errors. Only the Monte-Carlo loop drops
  anything, and it drops only infinite trial values.
- `calculate_mls` raises in three places. The cutoff and the exponent arrive as plain Python
  floats, so `cutoff ** beta` raises `ZeroDivisionError` for a zero cutoff and a negative
  exponent (mls_calculator.py:91). `max(area)` raises `ValueError` for an empty area list
  (mls_calculator.py:98). `ref_midy / (11111 * ref_midx ** beta)` raises `ZeroDivisionError`
  when the power underflows to 0.0, which happens for an exponent below about −69
  (mls_calculator.py:104). The Monte-Carlo trials draw Python floats as well, so one trial
  that hits either division ends the whole calculation (mls_calculator.py:132-134). The model
  returns `Err(ZeroDivision)` or `Err(EmptyArea)` in these cases, in the order the code
  reaches them.

## Model

| member | source | states |
|---|---|---|
| Binning.BuildEdges | mls_calculator.py:52-55 | the edge array has 120 entries, `x1[0] = 2`, each next edge is 1.2 times the previous, and it equals the edge sequence `2·1.2^i` |
| Binning.Edge | mls_calculator.py:52-55 | edge i: 2, then each edge 1.2 times the one before; `EdgeAtLeastTwo` and `EdgesIncreasing` state its values |
| Binning.Edges | mls_calculator.py:52-55 | the 120 edges `2·1.2^i`, one per index; `AgreesWithEdges` ties them to the loop's recurrence |
| Binning.EdgeAtLeastTwo | mls_calculator.py:52-55 | every edge `2·1.2^i` is at least 2 |
| Binning.AgreesWithEdges | mls_calculator.py:52-55 | a sequence of 120 values with the closed-form entries is the edge sequence, and it starts at 2 and grows by 1.2 per step |
| Binning.EdgesIncreasing | mls_calculator.py:52-55 | the 120 edges are strictly increasing |
| Binning.Histogram | mls_calculator.py:58 | there is one count per bin, one fewer than the edges; `HitsTotal` and `HistogramTotal` state what the counts add up to |
| Binning.HistogramTotal | mls_calculator.py:58 | the bin counts sum to the number of areas in `[edge[0], edge[last]]`, for any strictly increasing edges |
| Binning.HistogramIgnoresOutside | mls_calculator.py:58 | an area below the first edge or above the last changes no bin count |
| Binning.Hits | mls_calculator.py:58 | one 0/1 entry per bin saying whether the area falls in it; `HitsTotal` states that an area in the span hits exactly one bin |
| Binning.HitsTotal | mls_calculator.py:58 | an area lies in exactly one half-open bin (the last bin closed) when it is inside the edge span, and in none otherwise |
| Binning.BinWidths | mls_calculator.py:61-66 | the loop fills `internal` with `edge[0]` for bin 0 and `edge[i]−edge[i−1]` for bin i > 0 |
| Binning.Widths | mls_calculator.py:61-66 | one width per bin, one fewer than the edges; `BinWidthsOfEdges` and `WidthsPositive` state their values |
| Binning.WidthsPositive | mls_calculator.py:61-66 | over strictly increasing positive edges every width is positive, bin 0's included |
| Binning.BinWidthsOfEdges | mls_calculator.py:61-66 | bin 0 gets width 2, the first edge, and not its own span 0.4; bin i > 0 gets `edge[i]−edge[i−1]` |
| Binning.EdgeWidthsPositive | mls_calculator.py:61-69 | all 119 widths are positive, so no density divides by zero |
| Binning.Density | mls_calculator.py:69 | one density `count/width` per bin; `DensityRecoversCounts` states its meaning |
| Binning.DensityRecoversCounts | mls_calculator.py:69 | over positive widths every density is non-negative and times its width gives back the count |
| Binning.DensityOfEdges | mls_calculator.py:69 | every density `count/width` over the real edges is non-negative and times its width gives back the count |
| Binning.Centres | mls_calculator.py:72-74 | one midpoint per bin, one fewer than the edges; `CentresInside` states where they lie |
| Binning.CentresInside | mls_calculator.py:72-74 | each centre lies strictly between its two edges, and the centres are strictly increasing |
| Binning.BinCentres | mls_calculator.py:72-75 | the loop fills the centres with the midpoints `(edge[i]+edge[i+1])/2` of the original edges |
| PowerLawFit.Distances | mls_calculator.py:78 | `np.abs(x1 - cutoff)`: one distance per centre |
| PowerLawFit.ArgMin | mls_calculator.py:78-79 | `np.argmin`: a valid index of a least value, with every earlier value strictly larger |
| PowerLawFit.AnchorIndex | mls_calculator.py:78-79 | the anchor is a valid index of a centre nearest the cutoff, and no earlier index is as near (first minimum, as `np.argmin`) |
| PowerLawFit.NormaliseBeta | mls_calculator.py:86-88 | after normalisation the exponent is `−|beta|`, so never positive |
| PowerLawFit.NormaliseBetaSignInvariant | mls_calculator.py:86-87 | a positive exponent normalises to the same value as its negation |
| PowerLawFit.ScaleConstant | mls_calculator.py:91 | `constant = y[0]/cutoff^β`; `CurvePassesThroughAnchor` states its meaning |
| PowerLawFit.CurveAt | mls_calculator.py:99 | the power law `c·x^β` at x; `CurveRatio` states that two curves with one exponent have a constant ratio |
| PowerLawFit.CurveRatio | mls_calculator.py:104-107 | when `x^β` and `ac` are non-zero, `(c·x^β)/(ac·x^β) = c/ac` |
| PowerLawFit.MidX | mls_calculator.py:98 | `midx = 10^((log10(max area) + log10(cutoff))/2)`; the magnitude lemmas use it |
| PowerLawFit.RefScale | mls_calculator.py:102-104 | `ac = ref_midy/(11111·ref_midx^β)`; `RefScaleNonZero` states its meaning |
| PowerLawFit.ZeroToNegativePower | mls_calculator.py:91 | Python's float `**` raises `ZeroDivisionError` exactly for a zero base and a negative exponent |
| PowerLawFit.RefScaleRaises | mls_calculator.py:104 | the reference division raises exactly when `11111·ref_midx^β` is 0.0 |
| PowerLawFit.RefScaleNonZero | mls_calculator.py:104 | when the reference division does not raise, `ac` is the exact quotient and is non-zero |
| PowerLawFit.MagnitudeAt | mls_calculator.py:107 | `log10(midy/(ac·midx^β))`; `MagnitudeIdentity` states what it reduces to |
| PowerLawFit.FitPowerLaw | mls_calculator.py:78-107 | the fit's anchor is a nearest centre, y[0] is the density at the anchor, and the stored exponent is `−|beta|` |
| PowerLawFit.CurvePassesThroughAnchor | mls_calculator.py:91-94 | the fitted curve `constant·x^β` passes through the anchor density at `x = cutoff` whenever `cutoff^β ≠ 0` |
| PowerLawFit.MagnitudeIdentity | mls_calculator.py:91-107 | when `midx^β ≠ 0` and `ac ≠ 0`, the argument of log10 equals `constant/ac`, so the magnitude is `log10(constant/ac)` |
| PowerLawFit.FitSignInvariant | mls_calculator.py:86-107 | the whole fit with a positive exponent equals the fit with its negation |
| Numeric.Pow | mls_calculator.py:91 | `x ** y` with a real exponent, an abstract operation |
| Numeric.Log10 | mls_calculator.py:98 | `np.log10`, an abstract operation |
| Numeric.Exp10 | mls_calculator.py:98 | `10 ** x`, an abstract operation |
| Numeric.Ln | powerlaw_estimator.py:65 | `np.log`, an abstract operation |
| Numeric.Sqrt | powerlaw_estimator.py:117 | `np.sqrt`, an abstract operation |
| Numeric.IsInf | mls_calculator.py:137 | `np.isinf`, an abstract operation |
| Numeric.Percentile | powerlaw_estimator.py:45 | `np.percentile`, an abstract operation |
| Numeric.Slope | powerlaw_estimator.py:106 | the leading coefficient of `np.polyfit(x, y, 1)`, an abstract operation |
| Numeric.Div | mls_calculator.py:69 | NumPy division: exact for a non-zero divisor, otherwise the abstract inf or nan; `DivInverse` states that multiplying back gives the dividend |
| Numeric.DivInverse | mls_calculator.py:69 | for a non-zero divisor, `(a/b)·b = a` |
| Numeric.Abs | powerlaw_estimator.py:68 | `abs`: non-negative and equal to x or −x |
| Numeric.Max | mls_calculator.py:117 | `max(a, b)`: at least both, and one of them |
| Numeric.Mean | mls_calculator.py:121-124 | `np.mean`, the sum over the count; `ConstantMean` and `LinspaceMean` state its values |
| Numeric.ConstantMean | mls_calculator.py:121-124 | a non-empty constant sequence has that constant as its mean |
| Numeric.Std | mls_calculator.py:122-124 | `np.std` with ddof 0, the root of the mean squared deviation; `ConstantStd` states its value on constant data |
| Numeric.ConstantStd | mls_calculator.py:140 | a non-empty constant sequence has deviation 0 when `sqrt(0) = 0` |
| Numeric.Linspace | mls_calculator.py:114-119 | `np.linspace(a, b, n)`: n points from a to b with a constant step, ascending when a ≤ b |
| Numeric.LinspaceMean | mls_calculator.py:121-123 | the mean of `np.linspace(a, b, n)` is `(a+b)/2` |
| Uncertainty.IntervalProxy | mls_calculator.py:114-124 | the mean of a 500-point `np.linspace` interval is the midpoint of its bounds |
| Uncertainty.CutoffBounds | mls_calculator.py:117-118 | the lower cutoff bound is `max(cutoff−error, 2)`: at least 2 and at least `cutoff−error`; the upper bound is `cutoff+error` |
| Uncertainty.BetaProxy | mls_calculator.py:114-115 | the exponent's Gaussian is centred on the normalised exponent |
| Uncertainty.CutoffProxy | mls_calculator.py:117-123 | the cutoff's Gaussian is centred on the cutoff unless the interval is clipped at 2, where the centre moves up to `(2+cutoff+error)/2` |
| Uncertainty.TrialValue | mls_calculator.py:129-135 | the magnitude of trial t from its two draws; `TrialAtNominal` states that nominal draws reproduce the point magnitude |
| Uncertainty.TrialValues | mls_calculator.py:128-135 | the first n trial magnitudes in trial order, one per trial |
| Uncertainty.KeepTrial | mls_calculator.py:137 | a trial magnitude is kept iff it is not infinite |
| Uncertainty.Simulated | mls_calculator.py:127-138 | the finite trial values in trial order; `SimulatedFinite` states its bounds and `SimulationOutcome` that it is `mls_array` |
| Uncertainty.TrialRaises | mls_calculator.py:132-134 | a trial raises exactly when its drawn cutoff is 0 with a negative drawn exponent, or its reference power underflows |
| Uncertainty.Run | mls_calculator.py:127-138 | the first n trials in order: an error from the first raising trial on, otherwise `mls_array` after n passes |
| Uncertainty.Simulation | mls_calculator.py:127-138 | the outcome of all 10 000 trials |
| Uncertainty.RunStep | mls_calculator.py:132-138 | a trial that does not raise appends its magnitude when it is finite and nothing otherwise |
| Uncertainty.RunRaises | mls_calculator.py:132-134 | a trial that raises ends the whole simulation with `ZeroDivisionError` |
| Uncertainty.RunStaysFailed | mls_calculator.py:128-134 | once a trial has raised, later trials never change the outcome |
| Uncertainty.RunFailsIff | mls_calculator.py:128-134 | n trials fail, with `ZeroDivisionError`, iff one of them raises |
| Uncertainty.RunValue | mls_calculator.py:128-138 | when n trials succeed, their result is the finite trial values in the order drawn |
| Uncertainty.SimulationOutcome | mls_calculator.py:127-138 | the simulation fails iff some trial raises; otherwise it is the finite trial values, at most 10 000, none infinite |
| Uncertainty.OneTrial | mls_calculator.py:129-135 | one pass of the loop yields nothing iff the trial raises, and otherwise the trial's magnitude |
| Uncertainty.MonteCarlo | mls_calculator.py:127-138 | the loop's outcome is `Simulation`: `ZeroDivisionError` from the first trial that divides by zero, otherwise `mls_array`, the non-infinite trial magnitudes in trial order |
| Uncertainty.SimulatedFinite | mls_calculator.py:137-138 | no kept trial value is infinite and at most one value per trial is kept |
| Uncertainty.UncertaintyOf | mls_calculator.py:110-140 | without both beta_error and cutoff_error the uncertainty is `'?'`; with both it is a deviation unless a trial raises, and the only error is `ZeroDivisionError` |
| Uncertainty.TrialAtNominal | mls_calculator.py:129-135 | a trial that draws exactly the nominal cutoff and exponent reproduces the magnitude, because midy is the original one |
| Uncertainty.CollapsedProxy | mls_calculator.py:114-124 | an interval of zero width gives the Gaussian (value, 0) |
| Uncertainty.ZeroErrorsGiveZeroSpread | mls_calculator.py:110-140 | with both errors 0, a cutoff of at least 2, a sampler that returns its mean at deviation 0, a reference power that does not underflow and a finite point magnitude, the simulation keeps all 10 000 trials, each equal to the point magnitude, and the uncertainty is `Estimated(0)` when `sqrt(0) = 0` |
| MlsCalculator.CalculateMls | mls_calculator.py:48-140 | the step-by-step calculation, with edges, widths and centres built in arrays, equals `MlsSpec`, including its three ways of raising |
| MlsCalculator.DensityCurve | mls_calculator.py:58-69 | one density per bin over the fixed edges; `DensityIsCountPerWidth` states each value |
| MlsCalculator.MlsSpec | mls_calculator.py:48-140 | the calculation as a function: `ZeroDivisionError` at line 91, then `ValueError` for no areas, then `ZeroDivisionError` at line 104, then the point estimate and the uncertainty |
| MlsCalculator.MlsFit | mls_calculator.py:78-107 | the point estimate over the fixed bins; its exponent is the normalised one |
| MlsCalculator.Completed | mls_calculator.py:110-140 | past the point estimate only a Monte-Carlo trial can raise, and without both errors nothing can |
| MlsCalculator.FailureCauses | mls_calculator.py:91-104 | a zero cutoff with a non-zero beta raises `ZeroDivisionError`; `ValueError` occurs iff there are no areas and line 91 did not raise; an underflowing reference power raises; without both errors the calculation succeeds iff none of these applies |
| MlsCalculator.TrialFailures | mls_calculator.py:112-140 | with both errors and a point estimate that does not raise, the calculation fails iff some trial raises, and otherwise reports the deviation of the simulated magnitudes |
| MlsCalculator.ErrorGating | mls_calculator.py:111-112 | whenever the calculation succeeds, it holds a numeric uncertainty iff both errors are supplied |
| MlsCalculator.SignInvariance | mls_calculator.py:86-140 | a call with exponent b > 0 gives the same result as a call with −b, uncertainty included |
| MlsCalculator.AnchorAndExponent | mls_calculator.py:78-88 | whenever the calculation succeeds, the reported exponent is `−|beta|` and the anchor lies in 0..118 at a centre nearest the cutoff, whatever the cutoff |
| MlsCalculator.DensityIsCountPerWidth | mls_calculator.py:58-69 | for each of the 119 bins the width is positive and the density is `count/width ≥ 0` |
| MlsCalculator.AnchorDensity | mls_calculator.py:82-91 | whenever the calculation succeeds, y[0] is the density of the anchor's bin, its count over its width, and is non-negative |
| MlsCalculator.MagnitudeIsScaleRatio | mls_calculator.py:98-107 | whenever the calculation succeeds, `ac ≠ 0`, and the magnitude is `log10(constant/ac)` whenever `midx^β ≠ 0` |
| MlsCalculator.CountsCoverSpan | mls_calculator.py:58 | the counts over the real edges sum to the number of areas in `[2, edge[119]]` |
| Seqs.Filter | powerlaw_estimator.py:40 | a boolean mask: at most as many values, and a value is kept iff it is present and passes the test |
| Seqs.SortReals | powerlaw_estimator.py:41 | `np.sort`: sorted ascending and a permutation of the input |
| Seqs.MaxOf | mls_calculator.py:98 | `max(area)`: one of the values and at least every value |
| PowerlawEstimator.PositiveSorted | powerlaw_estimator.py:39-41 | the filtered, sorted sample is sorted ascending, all positive, and a permutation of the positive inputs |
| PowerlawEstimator.NoPositiveAreas | powerlaw_estimator.py:39-45 | the positive sample is empty exactly when no input area is positive |
| PowerlawEstimator.Tail | powerlaw_estimator.py:56 | the tail holds exactly the sample values at or above the candidate |
| PowerlawEstimator.TailPositive | powerlaw_estimator.py:56-64 | the tail of a positive sample is positive, so the `np.all(data > 0)` test always passes |
| PowerlawEstimator.LogRatioSum | powerlaw_estimator.py:65 | `Σ ln(x/cutoff)` over the tail; `MleBeta` uses it |
| PowerlawEstimator.MleBeta | powerlaw_estimator.py:63-68 | the estimated exponent is `±(1 + n/Σ ln(x/cutoff))` and is never positive |
| PowerlawEstimator.EmpiricalCdf | powerlaw_estimator.py:78 | the empirical CDF lies in [0, 1] |
| PowerlawEstimator.CountIsInsertionPoint | powerlaw_estimator.py:78 | on sorted data the count of values ≤ x is the right-side insertion point: all before it are ≤ x, all after are > x |
| PowerlawEstimator.EmpiricalCdfMonotone | powerlaw_estimator.py:78 | the empirical CDF is non-decreasing in x |
| PowerlawEstimator.EmpiricalCdfTop | powerlaw_estimator.py:72-78 | at or beyond the largest tail value the empirical CDF is 1 |
| PowerlawEstimator.TheoryCdf | powerlaw_estimator.py:74-75 | `1 − (x/cutoff)^(−alpha)`; `KsGaps` applies it on the 1000 points |
| PowerlawEstimator.KsGaps | powerlaw_estimator.py:72-81 | there are 1000 gaps `|theory − empirical|`, all non-negative |
| PowerlawEstimator.KsScore | powerlaw_estimator.py:81 | the KS score is one of the 1000 gaps and at least every gap, so it is their maximum, and it is ≥ 0 |
| PowerlawEstimator.Evaluate | powerlaw_estimator.py:54-81 | a candidate with a tail under 50 is skipped; a kept one has a tail ≥ 50, its own cutoff, an exponent ≤ 0 and a score ≥ 0; on a positive sample a tail ≥ 50 is always kept |
| PowerlawEstimator.TailThreshold | powerlaw_estimator.py:56-59 | on the filtered sample a candidate is kept iff its tail has at least 50 values |
| PowerlawEstimator.Select | powerlaw_estimator.py:83-86 | the selected index is None iff no candidate qualifies; otherwise it is qualifying, scores ≤ every qualifying candidate, and beats every earlier one strictly (first minimum) |
| PowerlawEstimator.Evaluations | powerlaw_estimator.py:54-81 | one evaluation per candidate, in candidate order |
| PowerlawEstimator.SearchRange | powerlaw_estimator.py:43-45 | the given range, or the 10th and 50th percentiles of the sample |
| PowerlawEstimator.Candidates | powerlaw_estimator.py:52 | 50 evenly spaced candidates from the range's start to its end, ascending when the range is |
| PowerlawEstimator.LoopResult | powerlaw_estimator.py:47-86 | the loop yields a candidate iff some candidate qualifies |
| PowerlawEstimator.Chosen | powerlaw_estimator.py:83-109 | the selected candidate, or the fallback when none qualifies; `EstimateFromCandidates` and `EstimateFromFallback` state both branches |
| PowerlawEstimator.CandidateLoop | powerlaw_estimator.py:47-86 | updating `best_ks`, `best_cutoff` and `best_beta` on a strictly smaller score yields the `Select`ed candidate |
| PowerlawEstimator.LoopSelectsCandidate | powerlaw_estimator.py:54-86 | when a candidate qualifies, the loop returns the `Select`ed one; its tail has ≥ 50 values and its exponent is ≤ 0 |
| PowerlawEstimator.Populated | powerlaw_estimator.py:100-103 | the kept (centre, count) pairs are exactly the bins with a positive count, each with its own centre, in bin order |
| PowerlawEstimator.Bins | powerlaw_estimator.py:97-98 | every bin as its (centre, count) pair, one per bin |
| PowerlawEstimator.LogEdges | powerlaw_estimator.py:96 | `np.logspace` from the cutoff to the tail maximum gives 30 edges |
| PowerlawEstimator.LogCentres | powerlaw_estimator.py:102 | `x_fit` has one log10 centre per populated bin |
| PowerlawEstimator.LogCounts | powerlaw_estimator.py:103 | `y_fit` has one log10 count per populated bin |
| PowerlawEstimator.FallbackPoints | powerlaw_estimator.py:93-103 | the populated bins of the 30-edge logarithmic histogram of the tail |
| PowerlawEstimator.FallbackBeta | powerlaw_estimator.py:92-109 | with at most 5 populated bins the exponent is −2.3; with more it is the `np.polyfit` slope of log10(count) against log10(centre) over the populated bins |
| PowerlawEstimator.Fallback | powerlaw_estimator.py:89-96 | the fallback cutoff is the 25th percentile, and the fallback fails iff its tail is empty (`max` of nothing) |
| PowerlawEstimator.WithErrors | powerlaw_estimator.py:111-122 | cutoff_error is `0.1·cutoff`; beta_error is ≥ 0 whenever `sqrt(n)` is positive |
| PowerlawEstimator.EstimatePowerlawParameters | powerlaw_estimator.py:39-122 | the step-by-step estimator equals the specification `EstimateSpec` |
| PowerlawEstimator.EstimateSpec | powerlaw_estimator.py:39-122 | the estimator as a function: an empty-sample error, else the selected or fallback cutoff and exponent with their errors |
| PowerlawEstimator.EstimateErrors | powerlaw_estimator.py:39-96 | the estimator reports an empty sample iff no area is positive, and otherwise fails only in the fallback |
| PowerlawEstimator.EstimateFromCandidates | powerlaw_estimator.py:83-122 | if any candidate qualifies, the result is the selected candidate: exponent ≤ 0, tail ≥ 50, `cutoff_error = 0.1·cutoff`, and `beta_error ≥ 0` whenever `sqrt(n)` is positive |
| PowerlawEstimator.EstimateFromFallback | powerlaw_estimator.py:89-120 | if no candidate qualifies, the estimate fails iff the tail is empty; otherwise the cutoff is the 25th percentile, `cutoff_error` is 10% of it, and the exponent is −2.3 with at most 5 populated bins and the regression slope over them with more |
| WebApp.LowerChar | app.py:27 | an upper-case ASCII letter maps to its lower-case letter; every other character is unchanged |
| WebApp.Lower | app.py:27 | `str.lower()`: same length, each character lower-cased; `LowerIdempotent` and `AllowedFileIgnoresCase` use it |
| WebApp.LowerIdempotent | app.py:27 | lower-casing twice is lower-casing once |
| WebApp.Extension | app.py:27 | the extension is None iff the name has no dot; otherwise it is the dot-free text after the last dot |
| WebApp.AllowedFile | app.py:25-27 | `allowed_file`; `AllowedFileIff` states exactly which names it accepts |
| WebApp.ExtensionAfterLastDot | app.py:27 | the text after a dot that no other dot follows is the extension |
| WebApp.AllowedFileIff | app.py:25-27 | `allowed_file` holds iff some dot is followed by no other dot and the lower-cased rest is zip, shp, dbf, shx or prj |
| WebApp.FinalExtensionDecides | app.py:27 | only the text after the last dot decides, whatever precedes it |
| WebApp.AllowedFileIgnoresCase | app.py:27 | a name is accepted iff its lower-cased form is |
| WebApp.NoDotRejected | app.py:27 | a name without a dot is rejected |
| WebApp.IsShp | app.py:39 | `file.endswith('.shp')`, case-sensitive |
| WebApp.ListShapefiles | app.py:36-45 | the `.shp` names are kept in walk order, and the archive fails iff none ends in `.shp` |
| WebApp.LargeEnough | app.py:95 | an area is kept iff it is at least 1 square metre |
| WebApp.ValidAreas | app.py:95 | every kept area is ≥ 1 and every input area ≥ 1 is kept |
| WebApp.ValidAreasKeepsOrder | app.py:95 | the filter keeps one area iff it is ≥ 1 and distributes over concatenation, so order is kept |
| WebApp.Trunc | app.py:81 | Python's `int()` truncates toward zero |
| WebApp.UtmZone | app.py:81 | `int((lon+180)/6)+1`; `UtmZoneRange` and `UtmZoneAtAntimeridian` state its values |
| WebApp.UtmZoneRange | app.py:81 | for a longitude in [−180, 180) the zone is in 1..60, and zone z covers [−180+6(z−1), −180+6z) |
| WebApp.UtmZoneAtAntimeridian | app.py:81 | at longitude exactly 180 the formula gives zone 61 |
| WebApp.HemisphereOf | app.py:82 | the hemisphere is north iff the centroid's y is ≥ 0 |
| WebApp.FillParameters | app.py:169-182 | the step-by-step fill equals the fill rule `FillSpec` |
| WebApp.FillSpec | app.py:169-182 | the corrected fill: the estimator runs only when the cutoff or beta is missing and supplies exactly the missing values |
| WebApp.FillKeepsSupplied | app.py:175-182 | a supplied cutoff, beta, beta_error or cutoff_error is never overwritten |
| WebApp.FillWithoutEstimation | app.py:260-273 | with cutoff and beta both supplied nothing is estimated, nothing fails, and missing errors stay missing |
| WebApp.FillWithEstimation | app.py:169-182 | with cutoff or beta missing the fill fails iff the estimator fails; otherwise both errors are known and missing values come from the estimate |
| WebApp.FillAsWritten | app.py:169-182 | the fill as written: with the cutoff or beta missing, the call `estimate_powerlaw_parameters(areas, method=…)` is rejected |
| WebApp.FillAsWrittenFailsWhenEstimating | app.py:172 | as written, a request without a cutoff always fails; the corrected fill succeeds whenever the estimator does |

## Left out

- Floating point. `**` with a real exponent, `log10`, `10**x`, `ln`, `sqrt`, `np.std`'s
  square root, percentile interpolation, the `np.polyfit` slope, IEEE infinities and NaN are
  abstract fields of `Numeric.Ops`. No numeric value of a magnitude, exponent or error is
  proved. Rounding is not modelled.
- NaN. `real` has none. The Monte-Carlo filter keeps what the abstract `isInf` does not flag,
  so a NaN trial counts as kept, as in the code. In the estimator, `ks < best_ks` with a NaN
  score is false in Python, but a real score always compares; NaN KS scores are therefore
  not modelled.
- Randomness. `np.random.normal` is the `Sampler` parameter. No statistical claim about the
  spread or about parameter recovery is made.
- `fit_y` over all centres (mls_calculator.py:94) is not modelled. It is copied into
  `fit_y_stored` (mls_calculator.py:95), and nothing reads either one; the plot recomputes its
  own curve over `x_fit` (mls_calculator.py:151-152). `constant_sim` (mls_calculator.py:132) is
  computed in `Uncertainty.OneTrial`, one pass of `Uncertainty.MonteCarlo`, and discarded, as in the code.
- CalculateMls: the cutoff and the exponent are treated as the Python floats the upload form
  supplies (app.py:161-162). Python's `OverflowError` from a float `**` and the complex result
  of a negative base with a fractional exponent are not modelled; `Pow` is total. NumPy
  scalars, such as the estimator's results, would turn the two divisions into inf instead of
  raising; the routes never pass them, because the estimating call fails (see Findings).
- MonteCarlo: the drawn cutoff and exponent are Python floats too, and the same two gaps
  apply. A drawn exponent above about +65 makes `ref_midx ** beta_sim` overflow, and a
  negative drawn cutoff with a fractional exponent gives a complex number; neither is
  modelled.
- The plot and its base64 encoding (mls_calculator.py:142-186) are rendering.
- Flask routes, sessions, flash messages, saving the upload, unzipping and `os.walk`. Reading
  the shapefile with geopandas, the reprojection and the polygon areas are left out too.
  `WebApp.ListShapefiles` takes the walked relative paths as its input.
- `str.lower()` is modelled on ASCII letters only. No non-ASCII character lower-cases to one of
  the five extensions, so acceptance is unaffected.
- `np.histogram` raises for decreasing bin edges. The fallback's `np.logspace` edges come from
  the abstract `log10`/`10**x`, and that error is not modelled; the counts are those of
  `Binning.Histogram`.
- FallbackBeta: the regression slope is the abstract `Slope` over the populated log-log
  points. Its numeric value is not constrained, and it is not made negative, as in the code.
- WithErrors: `beta_error ≥ 0` is stated only when the abstract `sqrt(n)` is
  positive, because `sqrt` is abstract.
- Fallback: the `EmptyTail` error occurs only in the model. In the program the 25th
  percentile of a non-empty sample never exceeds its maximum, so the tail always holds
  `max(areas)` and `max(data)` (powerlaw_estimator.py:96) cannot raise. The model reaches
  this error only because `Percentile` is abstract and unconstrained.
- The search range's percentiles are abstract, so the model does not show that the 50
  candidates lie inside the sample's range.

## Findings

| source | as written | input that shows it | evidently intended | confidence | as-written member | corrected member |
|---|---|---|---|---|---|---|
| app.py:172 | `estimate_powerlaw_parameters(areas, method=estimation_method)` is unpacked into five values, but the estimator takes `(areas, xmin_range=None)` and returns four, so the call raises `TypeError` and the route goes to its error branch | any upload with the cutoff or beta field left empty | call the estimator with the areas only and unpack its four results, filling only the missing parameters | high, not executed | WebApp.FillAsWrittenFailsWhenEstimating | WebApp.FillWithEstimation |

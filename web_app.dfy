/**
 * The pure helpers of the web layer: the upload-extension check, the listing of `.shp` files
 * in an extracted archive, the minimum-area filter, the UTM zone and hemisphere of a centroid,
 * and the rule that fills in only the fit parameters the user left out.
 */
module WebApp {
  import opened Wrappers
  import opened Seqs
  import opened PowerlawEstimator
  import opened Numeric

  /** ALLOWED_EXTENSIONS. */
  const AllowedExtensions: set<string> := {"zip", "shp", "dbf", "shx", "prj"}

  /** str.lower() on one character (only ASCII letters have a lower-case form here). */
  function LowerChar(c: char): (l: char)
    ensures 'A' <= c <= 'Z' ==> 'a' <= l <= 'z' && l as int == c as int + 32
    ensures !('A' <= c <= 'Z') ==> l == c
  {
    if 'A' <= c <= 'Z' then (c as int + 32) as char else c
  }

  /** str.lower(). */
  function Lower(s: string): (r: string)
    ensures |r| == |s|
    ensures forall i :: 0 <= i < |s| ==> r[i] == LowerChar(s[i])
  {
    seq(|s|, i requires 0 <= i < |s| => LowerChar(s[i]))
  }

  /** Lower-casing leaves the dots where they were. */
  lemma LowerKeepsDots(s: string)
    ensures forall i :: 0 <= i < |s| ==> (Lower(s)[i] == '.' <==> s[i] == '.')
  {
  }

  /** Lower-casing twice is lower-casing once. */
  lemma LowerIdempotent(s: string)
    ensures Lower(Lower(s)) == Lower(s)
  {
  }

  /**
   * `filename.rsplit('.', 1)[1]`: the text after the last dot, or None when there is no dot
   * (then rsplit yields a single piece and `'.' in filename` is already false).
   */
  function Extension(name: string): (e: Option<string>)
    ensures e.None? <==> '.' !in name
    ensures e.Some? ==> |e.value| < |name| && name[|name| - |e.value| - 1] == '.' &&
                        name[|name| - |e.value|..] == e.value && '.' !in e.value
  {
    if name == [] then None
    else
      var last := name[|name| - 1];
      var init := name[..|name| - 1];
      assert name == init + [last];
      if last == '.' then Some([])
      else
        match Extension(init)
        case None => None
        case Some(x) =>
          assert init[|init| - |x|..] + [last] == name[|name| - |x| - 1..];
          Some(x + [last])
  }

  /** allowed_file: a dot, and the text after the last one, lower-cased, is an allowed extension. */
  function AllowedFile(name: string): bool
  {
    '.' in name && Lower(Extension(name).value) in AllowedExtensions
  }

  /** No position from k on holds a dot when the suffix from k has none. */
  lemma NoDotFrom(name: string, k: nat)
    requires k <= |name| && '.' !in name[k..]
    ensures forall m :: k <= m < |name| ==> name[m] != '.'
  {
    forall m | k <= m < |name| ensures name[m] != '.' {
      assert name[m] == name[k..][m - k];
    }
  }

  /** The extension is the part after the dot at position i exactly when no dot follows it. */
  lemma ExtensionAfterLastDot(name: string, i: nat)
    requires i < |name| && name[i] == '.' && '.' !in name[i + 1..]
    ensures Extension(name) == Some(name[i + 1..])
  {
    var x := Extension(name).value;
    var j := |name| - |x| - 1;
    NoDotFrom(name, j + 1);
    NoDotFrom(name, i + 1);
  }

  /**
   * allowed_file holds exactly when some dot is followed by no further dot and the text after
   * it, lower-cased, is one of the five extensions.
   */
  lemma AllowedFileIff(name: string)
    ensures AllowedFile(name) <==>
            exists i :: 0 <= i < |name| && name[i] == '.' && '.' !in name[i + 1..] &&
                        Lower(name[i + 1..]) in AllowedExtensions
  {
    if AllowedFile(name) {
      var x := Extension(name).value;
      var i := |name| - |x| - 1;
      assert name[i + 1..] == x;
    }
    forall i | 0 <= i < |name| && name[i] == '.' && '.' !in name[i + 1..]
      ensures Extension(name) == Some(name[i + 1..])
    {
      ExtensionAfterLastDot(name, i);
    }
  }

  /** Only the final extension counts: whatever precedes the last dot is irrelevant. */
  lemma FinalExtensionDecides(stem: string, ext: string)
    requires '.' !in ext
    ensures AllowedFile(stem + "." + ext) <==> Lower(ext) in AllowedExtensions
  {
    var name := stem + "." + ext;
    assert name[|stem|] == '.';
    assert name[|stem| + 1..] == ext;
    ExtensionAfterLastDot(name, |stem|);
  }

  /** The extension of a lower-cased name is the lower-cased extension. */
  lemma ExtensionOfLower(name: string)
    ensures Extension(Lower(name)).Some? <==> Extension(name).Some?
    ensures Extension(name).Some? ==> Extension(Lower(name)).value == Lower(Extension(name).value)
  {
    var ln := Lower(name);
    LowerKeepsDots(name);
    if '.' in name {
      var x := Extension(name).value;
      var i := |name| - |x| - 1;
      assert ln[i] == '.';
      assert ln[i + 1..] == Lower(x);
      assert '.' !in ln[i + 1..] by {
        LowerKeepsDots(x);
      }
      ExtensionAfterLastDot(ln, i);
    } else {
      assert '.' !in ln by {
        forall k | 0 <= k < |ln| ensures ln[k] != '.' {
          assert name[k] in name;
        }
      }
    }
  }

  /** Case is ignored: a name is accepted exactly when its lower-cased form is. */
  lemma AllowedFileIgnoresCase(name: string)
    ensures AllowedFile(Lower(name)) == AllowedFile(name)
  {
    ExtensionOfLower(name);
    LowerKeepsDots(name);
    if '.' in name {
      var i :| 0 <= i < |name| && name[i] == '.';
      assert Lower(name)[i] == '.';
      LowerIdempotent(Extension(name).value);
    }
    if '.' in Lower(name) {
      var i :| 0 <= i < |Lower(name)| && Lower(name)[i] == '.';
      assert name[i] == '.';
    }
  }

  /** A name without a dot is rejected, whatever it spells. */
  lemma NoDotRejected(name: string)
    requires '.' !in name
    ensures !AllowedFile(name)
  {
  }

  /** `file.endswith('.shp')` (case-sensitive). */
  predicate IsShp(name: string)
  {
    |name| >= 4 && name[|name| - 4..] == ".shp"
  }

  function ShpTest(): string -> bool { n => IsShp(n) }

  /** The extracted archive holds no `.shp` file. */
  datatype NoShapefile = NoShapefile

  /**
   * The loop of extract_shapefile over the files found in the archive (in walk order): every
   * `.shp` file is kept, in order, and an archive without one is an error.
   */
  method ListShapefiles(files: seq<string>) returns (r: Result<seq<string>, NoShapefile>)
    ensures r.Err? <==> forall i :: 0 <= i < |files| ==> !IsShp(files[i])
    ensures r.Ok? ==> r.value == Filter(files, ShpTest()) && |r.value| > 0
  {
    var shpFiles: seq<string> := [];
    for i := 0 to |files|
      invariant shpFiles == Filter(files[..i], ShpTest())
    {
      assert files[..i + 1] == files[..i] + [files[i]];
      FilterSnoc(files[..i], files[i], ShpTest());
      if IsShp(files[i]) {
        shpFiles := shpFiles + [files[i]];
      }
    }
    assert files[..|files|] == files;
    if shpFiles == [] {
      forall i | 0 <= i < |files| ensures !IsShp(files[i]) {
        assert files[i] in files;
      }
      return Err(NoShapefile);
    }
    assert shpFiles[0] in files;
    r := Ok(shpFiles);
  }

  /** Polygons smaller than this many square metres are dropped. */
  const MinArea: real := 1.0

  function LargeEnough(): real -> bool { a => a >= MinArea }

  /** `areas[areas >= 1]`. */
  function ValidAreas(areas: seq<real>): (r: seq<real>)
    ensures |r| <= |areas|
    ensures forall i :: 0 <= i < |r| ==> r[i] >= MinArea
    ensures forall a :: a in areas && a >= MinArea ==> a in r
  {
    var r := Filter(areas, LargeEnough());
    assert forall i :: 0 <= i < |r| ==> r[i] in r;
    r
  }

  /**
   * The filter keeps exactly the areas of at least 1, in their order: one area is kept alone or
   * dropped, and a concatenation is filtered piece by piece.
   */
  lemma ValidAreasKeepsOrder(xs: seq<real>, ys: seq<real>, a: real)
    ensures ValidAreas([a]) == if a >= MinArea then [a] else []
    ensures ValidAreas(xs + ys) == ValidAreas(xs) + ValidAreas(ys)
  {
    FilterAppend(xs, ys, LargeEnough());
    assert [a][1..] == [];
  }

  /** Python's int() on a float: truncation toward zero. */
  function Trunc(x: real): (n: int)
    ensures x >= 0.0 ==> n as real <= x < n as real + 1.0
    ensures x < 0.0 ==> n as real - 1.0 < x <= n as real
  {
    if x >= 0.0 then x.Floor else -((-x).Floor)
  }

  /** `int((lon + 180) / 6) + 1`. */
  function UtmZone(lon: real): int
  {
    Trunc((lon + 180.0) / 6.0) + 1
  }

  /**
   * For a longitude in [-180, 180) the zone is between 1 and 60, and zone z covers the
   * longitudes [-180 + 6(z - 1), -180 + 6z).
   */
  lemma UtmZoneRange(lon: real)
    requires -180.0 <= lon < 180.0
    ensures 1 <= UtmZone(lon) <= 60
    ensures -180.0 + 6.0 * (UtmZone(lon) - 1) as real <= lon < -180.0 + 6.0 * UtmZone(lon) as real
  {
    var q := (lon + 180.0) / 6.0;
    assert 0.0 <= q < 60.0;
    assert q * 6.0 == lon + 180.0;
  }

  /** On the antimeridian itself, longitude 180, the formula gives zone 61. */
  lemma UtmZoneAtAntimeridian()
    ensures UtmZone(180.0) == 61
  {
    assert (180.0 + 180.0) / 6.0 == 60.0;
  }

  datatype Hemisphere = North | South

  /** 'north' if the centroid's y is at least 0, else 'south'. */
  function HemisphereOf(y: real): (h: Hemisphere)
    ensures h == North <==> y >= 0.0
  {
    if y >= 0.0 then North else South
  }

  /** The parameters handed to calculate_mls after the fill. */
  datatype Params = Params(cutoff: real, beta: real, betaError: Option<real>, cutoffError: Option<real>)

  /** Why the route falls into its error branch while getting the parameters. */
  datatype FillError =
    | EstimatorCallRejected          // the call as written does not match the estimator's signature
    | EstimationFailed(e: EstimateError)

  /**
   * The fill rule: the estimator runs only when the cutoff or the exponent is missing, and
   * then supplies exactly the values the user did not.
   */
  function FillSpec(ops: Ops, areas: seq<real>, cutoff: Option<real>, beta: Option<real>,
                    betaError: Option<real>, cutoffError: Option<real>): Result<Params, FillError>
  {
    if cutoff.Some? && beta.Some? then Ok(Params(cutoff.value, beta.value, betaError, cutoffError))
    else
      match EstimateSpec(ops, areas, None)
      case Err(e) => Err(EstimationFailed(e))
      case Ok(est) =>
        Ok(Params(if cutoff.Some? then cutoff.value else est.cutoff,
                  if beta.Some? then beta.value else est.beta,
                  if betaError.Some? then betaError else Some(est.betaError),
                  if cutoffError.Some? then cutoffError else Some(est.cutoffError)))
  }

  /** The conditional reassignments of upload_file and process_selected, with the four-value estimator. */
  method FillParameters(ops: Ops, areas: seq<real>, cutoff: Option<real>, beta: Option<real>,
                        betaError: Option<real>, cutoffError: Option<real>)
    returns (r: Result<Params, FillError>)
    ensures r == FillSpec(ops, areas, cutoff, beta, betaError, cutoffError)
  {
    var c, b, be, ce := cutoff, beta, betaError, cutoffError;
    if c.None? || b.None? {
      var est := EstimatePowerlawParameters(ops, areas, None);
      if est.Err? {
        return Err(EstimationFailed(est.error));
      }
      if c.None? {
        c := Some(est.value.cutoff);
      }
      if b.None? {
        b := Some(est.value.beta);
      }
      if be.None? {
        be := Some(est.value.betaError);
      }
      if ce.None? {
        ce := Some(est.value.cutoffError);
      }
    }
    r := Ok(Params(c.value, b.value, be, ce));
  }

  /** A value the user supplied is never replaced by an estimate. */
  lemma FillKeepsSupplied(ops: Ops, areas: seq<real>, cutoff: Option<real>, beta: Option<real>,
                          betaError: Option<real>, cutoffError: Option<real>)
    ensures var r := FillSpec(ops, areas, cutoff, beta, betaError, cutoffError);
            r.Ok? ==> (cutoff.Some? ==> r.value.cutoff == cutoff.value) &&
                      (beta.Some? ==> r.value.beta == beta.value) &&
                      (betaError.Some? ==> r.value.betaError == betaError) &&
                      (cutoffError.Some? ==> r.value.cutoffError == cutoffError)
  {
  }

  /**
   * With both the cutoff and the exponent supplied nothing is estimated: the call cannot fail
   * and missing errors stay missing (so no uncertainty will be computed).
   */
  lemma FillWithoutEstimation(ops: Ops, areas: seq<real>, cutoff: real, beta: real,
                              betaError: Option<real>, cutoffError: Option<real>)
    ensures FillSpec(ops, areas, Some(cutoff), Some(beta), betaError, cutoffError)
            == Ok(Params(cutoff, beta, betaError, cutoffError))
  {
  }

  /**
   * With the cutoff or the exponent missing the estimator runs: the fill fails exactly when it
   * does, and otherwise both errors are known afterwards.
   */
  lemma FillWithEstimation(ops: Ops, areas: seq<real>, cutoff: Option<real>, beta: Option<real>,
                           betaError: Option<real>, cutoffError: Option<real>)
    requires cutoff.None? || beta.None?
    ensures var r := FillSpec(ops, areas, cutoff, beta, betaError, cutoffError);
            var est := EstimateSpec(ops, areas, None);
            (r.Ok? <==> est.Ok?) &&
            (r.Ok? ==> r.value.betaError.Some? && r.value.cutoffError.Some? &&
                       (cutoff.None? ==> r.value.cutoff == est.value.cutoff) &&
                       (beta.None? ==> r.value.beta == est.value.beta))
  {
  }

  /**
   * The fill as the routes write it: the estimator is called with a `method` keyword and five
   * results are unpacked, which the two-parameter, four-result estimator rejects, so the route
   * reaches its error branch whenever a parameter has to be estimated.
   */
  function FillAsWritten(cutoff: Option<real>, beta: Option<real>,
                         betaError: Option<real>, cutoffError: Option<real>): Result<Params, FillError>
  {
    if cutoff.Some? && beta.Some? then Ok(Params(cutoff.value, beta.value, betaError, cutoffError))
    else Err(EstimatorCallRejected)
  }

  /**
   * An upload without a cutoff never gets a magnitude as written, while the corrected fill
   * succeeds whenever the estimator does, by a qualifying candidate or by the fallback.
   */
  lemma FillAsWrittenFailsWhenEstimating(ops: Ops, areas: seq<real>, beta: Option<real>,
                                         betaError: Option<real>, cutoffError: Option<real>)
    ensures FillAsWritten(None, beta, betaError, cutoffError) == Err(EstimatorCallRejected)
    ensures EstimateSpec(ops, areas, None).Ok? ==>
              FillSpec(ops, areas, None, beta, betaError, cutoffError).Ok?
  {
  }
}

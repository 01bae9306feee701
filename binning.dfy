/**
 * The fixed geometric histogram of `calculate_mls`: 120 edges 2 * 1.2^i, the NumPy histogram
 * counts, the per-bin widths (with the source's one-position offset), the frequency density
 * and the bin centres.
 */
module Binning {
  import opened Seqs
  import opened Numeric

  const NumEdges: nat := 120
  const NumBins: nat := NumEdges - 1

  /** Edge i of the bin set: 2, then each edge 1.2 times the one before. */
  function Edge(i: nat): real
  {
    if i == 0 then 2.0 else Edge(i - 1) * 1.2
  }

  /** The edge sequence the source stores in `x1`. */
  function Edges(): (e: seq<real>)
    ensures |e| == NumEdges
  {
    seq(NumEdges, i requires 0 <= i < NumEdges => Edge(i))
  }

  /** Every edge is at least the first one, 2. */
  lemma {:induction false} EdgeAtLeastTwo(i: nat)
    ensures Edge(i) >= 2.0
  {
    if i > 0 {
      EdgeAtLeastTwo(i - 1);
    }
  }

  lemma {:induction false} EdgeBelow(i: nat, j: nat)
    requires i < j
    ensures Edge(i) < Edge(j)
    decreases j - i
  {
    EdgeAtLeastTwo(j - 1);
    if j == i + 1 {
      assert Edge(j) == Edge(i) * 1.2;
    } else {
      EdgeBelow(i, j - 1);
      assert Edge(j) == Edge(j - 1) * 1.2;
    }
  }

  /** The edges grow strictly, so the 119 bins are non-empty intervals. */
  lemma EdgesIncreasing()
    ensures StrictlyIncreasing(Edges())
  {
    forall i, j | 0 <= i < j < NumEdges ensures Edges()[i] < Edges()[j] {
      EdgeBelow(i, j);
    }
  }

  /** A sequence that agrees with Edge at every position is the edge sequence, with its recurrence. */
  lemma {:induction false} AgreesWithEdges(s: seq<real>)
    requires |s| == NumEdges && forall k :: 0 <= k < |s| ==> s[k] == Edge(k)
    ensures s == Edges()
    ensures s[0] == 2.0 && forall i :: 1 <= i < |s| ==> s[i] == s[i - 1] * 1.2
  {
    forall i | 1 <= i < |s| ensures s[i] == s[i - 1] * 1.2 {
      assert Edge(i) == Edge(i - 1) * 1.2;
    }
  }

  /** The loop filling `x1` in place. */
  method BuildEdges() returns (x1: array<real>)
    ensures fresh(x1)
    ensures x1.Length == NumEdges && x1[..] == Edges()
    ensures x1[0] == 2.0 && forall i :: 1 <= i < x1.Length ==> x1[i] == x1[i - 1] * 1.2
  {
    x1 := new real[NumEdges];
    x1[0] := 2.0;
    for i := 1 to NumEdges
      invariant forall k :: 0 <= k < i ==> x1[k] == Edge(k)
    {
      x1[i] := x1[i - 1] * 1.2;
    }
    AgreesWithEdges(x1[..]);
  }


  /**
   * Membership in bin i as np.histogram decides it: the half-open interval [e[i], e[i+1]),
   * except that the last bin also holds its right edge.
   */
  predicate InBin(e: seq<real>, i: nat, a: real)
    requires i + 1 < |e|
  {
    e[i] <= a && (a < e[i + 1] || (i + 2 == |e| && a == e[i + 1]))
  }

  /** Inside the closed span of all the edges. */
  predicate InSpan(e: seq<real>, a: real)
    requires |e| > 0
  {
    e[0] <= a <= e[|e| - 1]
  }

  function BinTest(e: seq<real>, i: nat): real -> bool
    requires i + 1 < |e|
  {
    a => InBin(e, i, a)
  }

  function SpanTest(e: seq<real>): real -> bool
    requires |e| > 0
  {
    a => InSpan(e, a)
  }

  /** np.histogram(areas, bins=e)[0]: the number of areas in each bin. */
  function Histogram(areas: seq<real>, e: seq<real>): (h: seq<nat>)
    requires |e| >= 1
    ensures |h| == |e| - 1
  {
    seq(|e| - 1, i requires 0 <= i < |e| - 1 => |Filter(areas, BinTest(e, i))|)
  }

  /** Which bins an area falls into, as 0/1 per bin. */
  function Hits(e: seq<real>, a: real): (v: seq<nat>)
    requires |e| >= 1
    ensures |v| == |e| - 1
  {
    seq(|e| - 1, i requires 0 <= i < |e| - 1 => if InBin(e, i, a) then 1 else 0)
  }

  /** The first k bins together hold [e[0], e[k]), closed at the right for the last bin. */
  lemma {:induction false} HitsPrefix(e: seq<real>, a: real, k: nat)
    requires |e| >= 2 && StrictlyIncreasing(e)
    requires 1 <= k <= |e| - 1
    ensures SumNat(Hits(e, a)[..k])
            == if e[0] <= a && (a < e[k] || (k == |e| - 1 && a == e[k])) then 1 else 0
  {
    var v := Hits(e, a);
    if k == 1 {
      assert v[..1] == [v[0]];
      assert [v[0]][..0] == [];
    } else {
      HitsPrefix(e, a, k - 1);
      assert v[..k][..k - 1] == v[..k - 1];
      assert e[0] < e[k - 1];
    }
  }

  /** An area lies in exactly as many bins as it lies in the span of the edges: one or none. */
  lemma HitsTotal(e: seq<real>, a: real)
    requires |e| >= 2 && StrictlyIncreasing(e)
    ensures SumNat(Hits(e, a)) == if InSpan(e, a) then 1 else 0
  {
    HitsPrefix(e, a, |e| - 1);
    assert Hits(e, a)[..|e| - 1] == Hits(e, a);
  }

  lemma {:induction false} SumNatPointwise(u: seq<nat>, v: seq<nat>, w: seq<nat>)
    requires |u| == |v| == |w|
    requires forall i :: 0 <= i < |u| ==> u[i] == v[i] + w[i]
    ensures SumNat(u) == SumNat(v) + SumNat(w)
  {
    if u != [] {
      var n := |u| - 1;
      SumNatPointwise(u[..n], v[..n], w[..n]);
    }
  }

  /** Adding one area to the sample adds its hit vector to the histogram. */
  lemma HistogramSnoc(areas: seq<real>, a: real, e: seq<real>)
    requires |e| >= 1
    ensures forall i :: 0 <= i < |e| - 1 ==>
              Histogram(areas + [a], e)[i] == Histogram(areas, e)[i] + Hits(e, a)[i]
  {
    forall i | 0 <= i < |e| - 1
      ensures Histogram(areas + [a], e)[i] == Histogram(areas, e)[i] + Hits(e, a)[i]
    {
      FilterSnoc(areas, a, BinTest(e, i));
    }
  }

  /**
   * The counts add up to the number of areas inside [e[0], e[last]]: every such area is
   * counted once, every other area not at all.
   */
  lemma {:induction false} HistogramTotal(areas: seq<real>, e: seq<real>)
    requires |e| >= 2 && StrictlyIncreasing(e)
    ensures SumNat(Histogram(areas, e)) == |Filter(areas, SpanTest(e))|
  {
    if areas == [] {
      var h := Histogram(areas, e);
      assert forall i :: 0 <= i < |h| ==> h[i] == 0;
      ZeroSum(h);
    } else {
      var xs, a := areas[..|areas| - 1], areas[|areas| - 1];
      assert areas == xs + [a];
      HistogramTotal(xs, e);
      HistogramSnoc(xs, a, e);
      SumNatPointwise(Histogram(areas, e), Histogram(xs, e), Hits(e, a));
      HitsTotal(e, a);
      FilterSnoc(xs, a, SpanTest(e));
    }
  }

  lemma {:induction false} ZeroSum(h: seq<nat>)
    requires forall i :: 0 <= i < |h| ==> h[i] == 0
    ensures SumNat(h) == 0
  {
    if h != [] {
      ZeroSum(h[..|h| - 1]);
    }
  }

  /** An area outside [e[0], e[last]] changes no count. */
  lemma HistogramIgnoresOutside(areas: seq<real>, a: real, e: seq<real>)
    requires |e| >= 2 && StrictlyIncreasing(e)
    requires !InSpan(e, a)
    ensures Histogram(areas + [a], e) == Histogram(areas, e)
  {
    HistogramSnoc(areas, a, e);
    forall i | 0 <= i < |e| - 1 ensures Hits(e, a)[i] == 0 {
      if InBin(e, i, a) {
        assert e[0] <= e[i] && e[i + 1] <= e[|e| - 1];
      }
    }
  }

  /**
   * The width assigned to bin i: e[0] for bin 0 and e[i] - e[i-1] otherwise, i.e. the gap
   * that ends at the bin's left edge rather than the bin's own span.
   */
  function Widths(e: seq<real>): (w: seq<real>)
    requires |e| >= 1
    ensures |w| == |e| - 1
  {
    seq(|e| - 1, i requires 0 <= i < |e| - 1 => if i == 0 then e[0] else e[i] - e[i - 1])
  }

  /** With positive increasing edges every width is positive, so no density divides by zero. */
  lemma WidthsPositive(e: seq<real>)
    requires |e| >= 1 && StrictlyIncreasing(e) && e[0] > 0.0
    ensures forall i :: 0 <= i < |e| - 1 ==> Widths(e)[i] > 0.0
  {
  }

  /**
   * For the real edges: bin 0 gets width 2 (the first edge itself), not its span 0.4, and bin
   * i > 0 gets the span of bin i - 1; all 119 widths are positive.
   */
  lemma BinWidthsOfEdges()
    ensures Widths(Edges())[0] == 2.0 && Edges()[1] - Edges()[0] == 0.4
    ensures forall i :: 1 <= i < NumBins ==> Widths(Edges())[i] == Edges()[i] - Edges()[i - 1]
  {
    assert Edge(1) == 2.4;
  }

  lemma EdgeWidthsPositive()
    ensures forall i :: 0 <= i < NumBins ==> Widths(Edges())[i] > 0.0
  {
    EdgesIncreasing();
    WidthsPositive(Edges());
  }

  /** The loop filling `internal` in place. */
  method BinWidths(x1: array<real>) returns (internal: array<real>)
    requires x1.Length >= 1
    ensures fresh(internal)
    ensures internal.Length == x1.Length - 1 && internal[..] == Widths(x1[..])
  {
    internal := new real[x1.Length - 1];
    for i := 0 to internal.Length
      invariant forall k :: 0 <= k < i ==> internal[k] == Widths(x1[..])[k]
    {
      if i == 0 {
        internal[i] := x1[0];
      } else {
        internal[i] := x1[i] - x1[i - 1];
      }
    }
    assert forall k :: 0 <= k < internal.Length ==> internal[..][k] == Widths(x1[..])[k];
  }

  /** fd = freq / internal, elementwise. */
  function Density(ops: Ops, freq: seq<nat>, w: seq<real>): (fd: seq<real>)
    requires |freq| == |w|
    ensures |fd| == |freq|
  {
    seq(|freq|, i requires 0 <= i < |freq| => Div(ops, freq[i] as real, w[i]))
  }

  /** Dividing counts by positive widths gives non-negative densities that recover the counts. */
  lemma DensityRecoversCounts(ops: Ops, freq: seq<nat>, w: seq<real>)
    requires |freq| == |w| && forall i :: 0 <= i < |w| ==> w[i] > 0.0
    ensures forall i :: 0 <= i < |freq| ==>
              Density(ops, freq, w)[i] >= 0.0 && Density(ops, freq, w)[i] * w[i] == freq[i] as real
  {
    forall i | 0 <= i < |freq|
      ensures Density(ops, freq, w)[i] >= 0.0 && Density(ops, freq, w)[i] * w[i] == freq[i] as real
    {
      DivNonNegative(ops, freq[i] as real, w[i]);
    }
  }

  /**
   * Over the real edges the density is always defined: for every one of the 119 bins it is
   * non-negative and density times width gives back the count.
   */
  lemma DensityOfEdges(ops: Ops, freq: seq<nat>)
    requires |freq| == NumBins
    ensures forall i :: 0 <= i < NumBins ==>
              Density(ops, freq, Widths(Edges()))[i] >= 0.0 &&
              Density(ops, freq, Widths(Edges()))[i] * Widths(Edges())[i] == freq[i] as real
  {
    EdgeWidthsPositive();
    DensityRecoversCounts(ops, freq, Widths(Edges()));
  }

  lemma DivNonNegative(ops: Ops, a: real, b: real)
    requires a >= 0.0 && b > 0.0
    ensures Div(ops, a, b) >= 0.0
  {
  }

  /** The midpoints of consecutive edges. */
  function Centres(e: seq<real>): (c: seq<real>)
    requires |e| >= 1
    ensures |c| == |e| - 1
  {
    seq(|e| - 1, i requires 0 <= i < |e| - 1 => (e[i] + e[i + 1]) / 2.0)
  }

  /** Each centre lies strictly inside its bin, and the centres grow strictly. */
  lemma CentresInside(e: seq<real>)
    requires |e| >= 1 && StrictlyIncreasing(e)
    ensures forall i :: 0 <= i < |e| - 1 ==> e[i] < Centres(e)[i] < e[i + 1]
    ensures StrictlyIncreasing(Centres(e))
  {
    var c := Centres(e);
    forall i, j | 0 <= i < j < |c| ensures c[i] < c[j] {
      assert e[i] < e[j] && e[i + 1] <= e[j + 1];
    }
  }

  /** The loop filling `x1_centers` in place. */
  method BinCentres(x1: array<real>) returns (centres: array<real>)
    requires x1.Length >= 1
    ensures fresh(centres)
    ensures centres.Length == x1.Length - 1 && centres[..] == Centres(x1[..])
  {
    centres := new real[x1.Length - 1];
    for i := 0 to centres.Length
      invariant forall k :: 0 <= k < i ==> centres[k] == Centres(x1[..])[k]
    {
      centres[i] := (x1[i] + x1[i + 1]) / 2.0;
    }
    assert forall k :: 0 <= k < centres.Length ==> centres[..][k] == Centres(x1[..])[k];
  }
}

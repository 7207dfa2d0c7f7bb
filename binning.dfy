/** The numpy binning that `ReflectSimulator.run` relies on
    (platypus-simulate/tof_simulator.py): `numpy.histogram` against the
    wavelength bin edges, `numpy.digitize` against the same edges, and
    boolean-mask selection. The two binning conventions differ at the last
    edge: the histogram's last bin is closed, digitize's bins are all
    half-open. Every sequence function here is built up from its last
    element, so adding one more sample is one unfolding. */
module Binning {
  import opened Common

  /** Bin i of `numpy.histogram(v, edges)`: [edges[i], edges[i+1]), except
      that the last bin also holds its right edge. */
  predicate InHistogramBin(v: real, edges: seq<real>, i: int)
    requires 0 <= i < |edges| - 1
  {
    edges[i] <= v < edges[i + 1] || (i == |edges| - 2 && v == edges[i + 1])
  }

  /** Kernel bin j of `run`: the values `numpy.digitize` puts at index j + 1,
      that is [edges[j], edges[j+1]). */
  predicate InKernelBin(v: real, edges: seq<real>, j: int)
    requires 0 <= j < |edges| - 1
  {
    edges[j] <= v < edges[j + 1]
  }

  /** How many of vs fall in histogram bin i. */
  function BinCount(vs: seq<real>, edges: seq<real>, i: int): (c: nat)
    requires 0 <= i < |edges| - 1
    ensures c <= |vs|
  {
    if |vs| == 0 then 0
    else BinCount(vs[..|vs| - 1], edges, i) + (if InHistogramBin(vs[|vs| - 1], edges, i) then 1 else 0)
  }

  /** The counts `numpy.histogram(vs, edges)[0]`. */
  function Histogram(vs: seq<real>, edges: seq<real>): (h: seq<nat>)
    requires |edges| >= 2
    ensures |h| == |edges| - 1
  {
    seq(|edges| - 1, i requires 0 <= i < |edges| - 1 => BinCount(vs, edges, i))
  }

  /** The histogram of the single value v. */
  function Indicator(v: real, edges: seq<real>): (h: seq<nat>)
    requires |edges| >= 2
    ensures |h| == |edges| - 1
  {
    seq(|edges| - 1, i requires 0 <= i < |edges| - 1 => if InHistogramBin(v, edges, i) then 1 else 0)
  }

  /** Element-wise sum of two count arrays (`a += b`). */
  function AddCounts(a: seq<nat>, b: seq<nat>): (s: seq<nat>)
    requires |a| == |b|
    ensures |s| == |a|
  {
    seq(|a|, i requires 0 <= i < |a| => a[i] + b[i])
  }

  /** How many of vs lie in [edges[0], edges[|edges| - 1]]. */
  function CountInRange(vs: seq<real>, edges: seq<real>): (c: nat)
    requires |edges| >= 1
    ensures c <= |vs|
  {
    if |vs| == 0 then 0
    else
      var v := vs[|vs| - 1];
      CountInRange(vs[..|vs| - 1], edges) + (if edges[0] <= v <= edges[|edges| - 1] then 1 else 0)
  }

  /** How many of vs equal x. */
  function CountEqual(vs: seq<real>, x: real): (c: nat)
    ensures c <= |vs|
  {
    if |vs| == 0 then 0
    else CountEqual(vs[..|vs| - 1], x) + (if vs[|vs| - 1] == x then 1 else 0)
  }

  /** `vs[mask]`: the elements whose mask entry is true, in order. */
  function Select(vs: seq<real>, mask: seq<bool>): (r: seq<real>)
    requires |vs| == |mask|
    ensures |r| <= |vs|
  {
    if |vs| == 0 then []
    else
      var n := |vs| - 1;
      Select(vs[..n], mask[..n]) + (if mask[n] then [vs[n]] else [])
  }

  /** `numpy.digitize(v, edges)` for increasing edges: the number of edges at or below v. */
  function Digitize(v: real, edges: seq<real>): (k: nat)
    ensures k <= |edges|
  {
    if |edges| == 0 then 0
    else Digitize(v, edges[..|edges| - 1]) + (if edges[|edges| - 1] <= v then 1 else 0)
  }

  /** `numpy.digitize(vs, edges)` over a whole batch: one index per value. */
  function DigitizeAll(vs: seq<real>, edges: seq<real>): (ks: seq<nat>)
    ensures |ks| == |vs|
    ensures forall k :: 0 <= k < |ks| ==> ks[k] <= |edges|
  {
    seq(|vs|, k requires 0 <= k < |vs| => Digitize(vs[k], edges))
  }

  /** `q[locs == i]`: the q values whose bin index is i, in sample order. */
  function Pick(q: seq<real>, locs: seq<nat>, i: nat): (r: seq<real>)
    requires |q| == |locs|
    ensures |r| <= |q|
  {
    if |q| == 0 then []
    else
      var n := |q| - 1;
      Pick(q[..n], locs[..n], i) + (if locs[n] == i then [q[n]] else [])
  }

  /** The q values whose value in vs lies in kernel bin j, in sample order. */
  function KernelBinValues(q: seq<real>, vs: seq<real>, edges: seq<real>, j: int): (r: seq<real>)
    requires |q| == |vs| && 0 <= j < |edges| - 1
    ensures |r| <= |q|
  {
    if |q| == 0 then []
    else
      var n := |q| - 1;
      KernelBinValues(q[..n], vs[..n], edges, j) + (if InKernelBin(vs[n], edges, j) then [q[n]] else [])
  }

  // ---------------------------------------------------------------------
  // Histogram semantics

  /** Adding one value to a batch adds 1 exactly to the histogram bins that hold it. */
  lemma HistogramAppend(vs: seq<real>, v: real, edges: seq<real>)
    requires |edges| >= 2
    ensures Histogram(vs + [v], edges) == AddCounts(Histogram(vs, edges), Indicator(v, edges))
  {
    assert (vs + [v])[..|vs|] == vs;
  }

  lemma SumNatSnoc(s: seq<nat>, n: nat)
    requires n < |s|
    ensures SumNat(s[..n + 1]) == SumNat(s[..n]) + s[n]
  {
    assert s[..n + 1][..n] == s[..n];
  }

  lemma {:induction false} IndicatorPrefixSum(v: real, edges: seq<real>, n: nat)
    requires |edges| >= 2 && StrictlyIncreasing(edges) && n <= |edges| - 2
    ensures SumNat(Indicator(v, edges)[..n]) == if edges[0] <= v < edges[n] then 1 else 0
  {
    if n > 0 {
      IndicatorPrefixSum(v, edges, n - 1);
      SumNatSnoc(Indicator(v, edges), n - 1);
    }
  }

  /** The bins partition [edges[0], edges[N]]: a value lies in exactly one bin
      when it is in that range and in none otherwise. */
  lemma IndicatorSum(v: real, edges: seq<real>)
    requires |edges| >= 2 && StrictlyIncreasing(edges)
    ensures SumNat(Indicator(v, edges)) == if edges[0] <= v <= edges[|edges| - 1] then 1 else 0
  {
    var h := Indicator(v, edges);
    var n := |edges| - 2;
    IndicatorPrefixSum(v, edges, n);
    SumNatSnoc(h, n);
    assert h[..n + 1] == h;
  }

  lemma {:induction false} SumNatAdd(a: seq<nat>, b: seq<nat>)
    requires |a| == |b|
    ensures SumNat(AddCounts(a, b)) == SumNat(a) + SumNat(b)
  {
    if |a| > 0 {
      var n := |a| - 1;
      assert AddCounts(a, b)[..n] == AddCounts(a[..n], b[..n]);
      SumNatAdd(a[..n], b[..n]);
    }
  }

  lemma {:induction false} SumNatZeros(n: nat)
    ensures SumNat(seq(n, _ => 0)) == 0
  {
    if n > 0 {
      assert seq(n, _ => 0)[..n - 1] == seq(n - 1, _ => 0);
      SumNatZeros(n - 1);
    }
  }

  /** The histogram's total is the number of values inside [edges[0], edges[N]]:
      values outside are dropped, so a batch adds at most its size. */
  lemma {:induction false} HistogramTotal(vs: seq<real>, edges: seq<real>)
    requires |edges| >= 2 && StrictlyIncreasing(edges)
    ensures SumNat(Histogram(vs, edges)) == CountInRange(vs, edges) <= |vs|
  {
    if |vs| == 0 {
      assert Histogram(vs, edges) == seq(|edges| - 1, _ => 0);
      SumNatZeros(|edges| - 1);
    } else {
      var n := |vs| - 1;
      HistogramTotal(vs[..n], edges);
      assert vs[..n] + [vs[n]] == vs;
      HistogramAppend(vs[..n], vs[n], edges);
      SumNatAdd(Histogram(vs[..n], edges), Indicator(vs[n], edges));
      IndicatorSum(vs[n], edges);
    }
  }

  /** A masked selection never holds more values in any bin than the whole batch. */
  lemma {:induction false} BinCountSelect(vs: seq<real>, mask: seq<bool>, edges: seq<real>, i: int)
    requires |vs| == |mask| && 0 <= i < |edges| - 1
    ensures BinCount(Select(vs, mask), edges, i) <= BinCount(vs, edges, i)
  {
    if |vs| > 0 {
      var n := |vs| - 1;
      BinCountSelect(vs[..n], mask[..n], edges, i);
      var s := Select(vs[..n], mask[..n]);
      if mask[n] {
        assert Select(vs, mask) == s + [vs[n]];
        assert (s + [vs[n]])[..|s|] == s;
      } else {
        assert Select(vs, mask) == s;
      }
    }
  }

  lemma HistogramSelectBelow(vs: seq<real>, mask: seq<bool>, edges: seq<real>)
    requires |vs| == |mask| && |edges| >= 2
    ensures forall i :: 0 <= i < |edges| - 1 ==>
      Histogram(Select(vs, mask), edges)[i] <= Histogram(vs, edges)[i]
  {
    forall i | 0 <= i < |edges| - 1
      ensures Histogram(Select(vs, mask), edges)[i] <= Histogram(vs, edges)[i]
    {
      BinCountSelect(vs, mask, edges, i);
    }
  }

  // ---------------------------------------------------------------------
  // Digitize semantics

  /** `Digitize` finds the gap between edges that holds v. */
  lemma {:induction false} DigitizeGap(v: real, edges: seq<real>)
    requires StrictlyIncreasing(edges)
    ensures var k := Digitize(v, edges);
      (k == 0 || edges[k - 1] <= v) && (k == |edges| || v < edges[k])
  {
    if |edges| > 0 {
      var e := edges[..|edges| - 1];
      DigitizeGap(v, e);
    }
  }

  /** `numpy.digitize(v, edges) == j + 1` exactly when v is in [edges[j], edges[j+1]). */
  lemma DigitizeBin(v: real, edges: seq<real>, j: int)
    requires StrictlyIncreasing(edges) && 0 <= j < |edges| - 1
    ensures Digitize(v, edges) == j + 1 <==> InKernelBin(v, edges, j)
  {
    DigitizeGap(v, edges);
  }

  /** Selecting by digitized bin index j + 1 gives kernel bin j. */
  lemma {:induction false} PickDigitized(q: seq<real>, vs: seq<real>, edges: seq<real>, j: int)
    requires |q| == |vs| && StrictlyIncreasing(edges) && 0 <= j < |edges| - 1
    ensures Pick(q, DigitizeAll(vs, edges), j + 1) == KernelBinValues(q, vs, edges, j)
  {
    if |q| > 0 {
      var n := |q| - 1;
      assert DigitizeAll(vs, edges)[..n] == DigitizeAll(vs[..n], edges);
      PickDigitized(q[..n], vs[..n], edges, j);
      DigitizeBin(vs[n], edges, j);
    }
  }

  /** A value equal to the last edge is counted by the histogram's last bin
      and by no kernel bin. */
  lemma LastEdgeOnlyInHistogram(edges: seq<real>)
    requires |edges| >= 2 && StrictlyIncreasing(edges)
    ensures var v := edges[|edges| - 1];
      InHistogramBin(v, edges, |edges| - 2) &&
      forall j :: 0 <= j < |edges| - 1 ==> !InKernelBin(v, edges, j)
  {
  }

  /** Kernel bin j receives as many values as histogram bin j counts, except
      that the last histogram bin also counts the values equal to the last edge. */
  lemma {:induction false} KernelMatchesHistogram(q: seq<real>, vs: seq<real>, edges: seq<real>, j: int)
    requires |q| == |vs| && |edges| >= 2 && StrictlyIncreasing(edges) && 0 <= j < |edges| - 1
    ensures j < |edges| - 2 ==> |KernelBinValues(q, vs, edges, j)| == Histogram(vs, edges)[j]
    ensures j == |edges| - 2 ==>
      |KernelBinValues(q, vs, edges, j)| + CountEqual(vs, edges[|edges| - 1]) == Histogram(vs, edges)[j]
  {
    if |q| > 0 {
      var n := |q| - 1;
      KernelMatchesHistogram(q[..n], vs[..n], edges, j);
    }
  }

  // ---------------------------------------------------------------------
  // Batches accumulate: two batches in a row count what their concatenation counts

  lemma {:induction false} BinCountConcat(a: seq<real>, b: seq<real>, edges: seq<real>, i: int)
    requires 0 <= i < |edges| - 1
    ensures BinCount(a + b, edges, i) == BinCount(a, edges, i) + BinCount(b, edges, i)
  {
    if |b| == 0 {
      assert a + b == a;
    } else {
      var n := |b| - 1;
      BinCountConcat(a, b[..n], edges, i);
      assert (a + b)[..|a + b| - 1] == a + b[..n];
    }
  }

  /** The histogram of a concatenation is the sum of the two histograms. */
  lemma HistogramConcat(a: seq<real>, b: seq<real>, edges: seq<real>)
    requires |edges| >= 2
    ensures Histogram(a + b, edges) == AddCounts(Histogram(a, edges), Histogram(b, edges))
  {
    forall i | 0 <= i < |edges| - 1
      ensures Histogram(a + b, edges)[i] == AddCounts(Histogram(a, edges), Histogram(b, edges))[i]
    {
      BinCountConcat(a, b, edges, i);
    }
  }

  /** Adding two batches' histograms to a tally one after the other adds the
      histogram of the two batches together. */
  lemma TallyConcat(tally: seq<nat>, a: seq<real>, b: seq<real>, edges: seq<real>)
    requires |edges| >= 2 && |tally| == |edges| - 1
    ensures AddCounts(AddCounts(tally, Histogram(a, edges)), Histogram(b, edges))
         == AddCounts(tally, Histogram(a + b, edges))
  {
    HistogramConcat(a, b, edges);
  }

  /** Masking a concatenation is masking each part. */
  lemma {:induction false} SelectConcat(a: seq<real>, ma: seq<bool>, b: seq<real>, mb: seq<bool>)
    requires |a| == |ma| && |b| == |mb|
    ensures Select(a + b, ma + mb) == Select(a, ma) + Select(b, mb)
  {
    if |b| > 0 {
      var n := |b| - 1;
      SelectConcat(a, ma, b[..n], mb[..n]);
      assert (a + b)[..|a + b| - 1] == a + b[..n];
      assert (ma + mb)[..|ma + mb| - 1] == ma + mb[..n];
    } else {
      assert a + b == a && ma + mb == ma;
    }
  }

  /** The kernel values of a concatenated batch are those of the first part
      followed by those of the second. */
  lemma {:induction false} KernelBinValuesConcat(q1: seq<real>, v1: seq<real>, q2: seq<real>, v2: seq<real>,
                                                 edges: seq<real>, j: int)
    requires |q1| == |v1| && |q2| == |v2| && 0 <= j < |edges| - 1
    ensures KernelBinValues(q1 + q2, v1 + v2, edges, j)
         == KernelBinValues(q1, v1, edges, j) + KernelBinValues(q2, v2, edges, j)
  {
    if |q2| > 0 {
      var n := |q2| - 1;
      KernelBinValuesConcat(q1, v1, q2[..n], v2[..n], edges, j);
      assert (q1 + q2)[..|q1 + q2| - 1] == q1 + q2[..n];
      assert (v1 + v2)[..|v1 + v2| - 1] == v1 + v2[..n];
    } else {
      assert q1 + q2 == q1 && v1 + v2 == v1;
    }
  }
}

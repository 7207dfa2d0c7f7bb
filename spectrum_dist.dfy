/** The empirical wavelength spectrum of the time-of-flight simulator
    (`SpectrumDist` in platypus-simulate/tof_simulator.py): the support
    [min(x), max(x)], a CDF tabulated on a 1000-point even grid, and the fast
    approximate quantile `_ppf`, which is `numpy.interp` of a probability into
    that tabulated CDF. The spline that gives the CDF is foreign; it enters as
    a function parameter. */
module SpectrumDistribution {
  import opened Common

  /** Number of points of the tabulated CDF. */
  const GridSize: nat := 1000

  /** `numpy.linspace(lo, hi, n)`: `lo + k * step` with `step = (hi - lo) / (n - 1)`,
      with the last point set to `hi` exactly. */
  function Linspace(lo: real, hi: real, n: nat): (g: seq<real>)
    requires n >= 2
    ensures |g| == n
  {
    seq(n, k requires 0 <= k < n =>
      if k == n - 1 then hi else lo + (k as real) * ((hi - lo) / ((n - 1) as real)))
  }

  lemma LinspaceEvenlySpaced(lo: real, hi: real, n: nat)
    requires n >= 2
    ensures var g := Linspace(lo, hi, n);
      g[0] == lo && g[n - 1] == hi &&
      forall k :: 0 <= k < n - 1 ==> g[k + 1] - g[k] == (hi - lo) / ((n - 1) as real)
  {
    var g := Linspace(lo, hi, n);
    var step := (hi - lo) / ((n - 1) as real);
    assert ((n - 1) as real) * step == hi - lo;
    forall k | 0 <= k < n - 1
      ensures g[k + 1] - g[k] == step
    {
      assert ((k as real) + 1.0) * step == (k as real) * step + step;
      if k + 1 == n - 1 {
        assert (k as real) + 1.0 == (n - 1) as real;
      }
    }
  }

  /** An interior grid point is `lo + k * step`, between lo and hi. */
  lemma LinspacePoint(lo: real, hi: real, n: nat, k: nat)
    requires n >= 2 && lo <= hi && k < n - 1
    ensures var step := (hi - lo) / ((n - 1) as real);
      0.0 <= step && Linspace(lo, hi, n)[k] == lo + (k as real) * step &&
      lo <= Linspace(lo, hi, n)[k] <= hi
  {
    var last := (n - 1) as real;
    var step := (hi - lo) / last;
    assert last * step == hi - lo;
    StepWithin(lo, hi, k as real, last, step);
  }

  lemma StepOrdered(lo: real, a: real, b: real, step: real, x: real, y: real)
    requires a <= b && 0.0 <= step && x == lo + a * step && y == lo + b * step
    ensures x <= y
  {
    MulMonotone(a, b, step);
  }

  lemma StepWithin(lo: real, hi: real, k: real, last: real, step: real)
    requires 0.0 <= k <= last && 0.0 <= step && last * step == hi - lo
    ensures lo <= lo + k * step <= hi
  {
    MulMonotone(0.0, k, step);
    MulMonotone(k, last, step);
  }

  lemma LinspaceBounds(lo: real, hi: real, n: nat)
    requires n >= 2 && lo <= hi
    ensures var g := Linspace(lo, hi, n);
      NonDecreasing(g) && forall k :: 0 <= k < n ==> lo <= g[k] <= hi
  {
    var g := Linspace(lo, hi, n);
    forall k | 0 <= k < n - 1
      ensures lo <= g[k] <= hi
    {
      LinspacePoint(lo, hi, n, k);
    }
    forall i, j | 0 <= i <= j < n
      ensures g[i] <= g[j]
    {
      LinspaceOrdered(lo, hi, n, i, j);
    }
  }

  lemma LinspaceOrdered(lo: real, hi: real, n: nat, i: nat, j: nat)
    requires n >= 2 && lo <= hi && i <= j < n
    ensures Linspace(lo, hi, n)[i] <= Linspace(lo, hi, n)[j]
  {
    var g := Linspace(lo, hi, n);
    if j < n - 1 {
      var step := (hi - lo) / ((n - 1) as real);
      LinspacePoint(lo, hi, n, i);
      LinspacePoint(lo, hi, n, j);
      StepOrdered(lo, i as real, j as real, step, g[i], g[j]);
    } else if i < n - 1 {
      LinspacePoint(lo, hi, n, i);
      assert g[j] == hi;
    }
  }

  /** `numpy.min` of a non-empty array. */
  function MinOf(s: seq<real>): (m: real)
    requires |s| > 0
    ensures m in s
    ensures forall i :: 0 <= i < |s| ==> m <= s[i]
  {
    if |s| == 1 then s[0]
    else
      var r := MinOf(s[..|s| - 1]);
      if s[|s| - 1] < r then s[|s| - 1] else r
  }

  /** `numpy.max` of a non-empty array. */
  function MaxOf(s: seq<real>): (m: real)
    requires |s| > 0
    ensures m in s
    ensures forall i :: 0 <= i < |s| ==> s[i] <= m
  {
    if |s| == 1 then s[0]
    else
      var r := MaxOf(s[..|s| - 1]);
      if s[|s| - 1] > r then s[|s| - 1] else r
  }

  /** `rv_continuous.cdf` around the private `_cdf`: 1 at or above the upper
      support bound, 0 at or below the lower one, `_cdf` strictly inside. */
  function SupportCdf(a: real, b: real, innerCdf: real -> real, x: real): real
  {
    if x >= b then 1.0 else if x <= a then 0.0 else innerCdf(x)
  }

  /** The state a `SpectrumDist` keeps for sampling: its support [a, b], the
      grid of wavelengths and the CDF tabulated on it. */
  datatype SpectrumDist = SpectrumDist(a: real, b: real, xGrid: seq<real>, cdfGrid: seq<real>)

  ghost predicate WellFormed(d: SpectrumDist)
  {
    d.a <= d.b && |d.cdfGrid| == GridSize &&
    d.xGrid == Linspace(d.a, d.b, GridSize) && NonDecreasing(d.cdfGrid)
  }

  /** `SpectrumDist.__init__` as far as sampling needs it. `numpy.min` of an
      empty spectrum raises, which is `None` here. */
  function NewSpectrumDist(x: seq<real>, innerCdf: real -> real): (d: Option<SpectrumDist>)
    ensures d.None? <==> |x| == 0
    ensures d.Some? ==>
      var dist := d.value;
      dist.a in x && dist.b in x &&
      (forall i :: 0 <= i < |x| ==> dist.a <= x[i] <= dist.b) &&
      |dist.xGrid| == GridSize && |dist.cdfGrid| == GridSize &&
      dist.xGrid[0] == dist.a && dist.xGrid[GridSize - 1] == dist.b &&
      (forall k :: 0 <= k < GridSize ==> dist.a <= dist.xGrid[k] <= dist.b) &&
      (forall k :: 0 <= k < GridSize - 1 ==>
         dist.xGrid[k + 1] - dist.xGrid[k] == (dist.b - dist.a) / ((GridSize - 1) as real)) &&
      (dist.a < dist.b ==> dist.cdfGrid[0] == 0.0) &&
      dist.cdfGrid[GridSize - 1] == 1.0
  {
    if |x| == 0 then None
    else
      var a := MinOf(x);
      var b := MaxOf(x);
      var grid := Linspace(a, b, GridSize);
      LinspaceEvenlySpaced(a, b, GridSize);
      LinspaceBounds(a, b, GridSize);
      Some(SpectrumDist(a, b, grid,
        seq(GridSize, k requires 0 <= k < GridSize => SupportCdf(a, b, innerCdf, grid[k]))))
  }

  /** A spectrum whose integrated spline is non-decreasing and within [0, 1]
      on the open support yields a distribution `Ppf` can sample. */
  lemma NewSpectrumDistWellFormed(x: seq<real>, innerCdf: real -> real)
    requires |x| > 0
    requires forall u, v :: u <= v ==> innerCdf(u) <= innerCdf(v)
    requires forall u :: 0.0 <= innerCdf(u) <= 1.0
    ensures WellFormed(NewSpectrumDist(x, innerCdf).value)
  {
    var d := NewSpectrumDist(x, innerCdf).value;
    LinspaceBounds(d.a, d.b, GridSize);
    forall i, j | 0 <= i <= j < GridSize
      ensures d.cdfGrid[i] <= d.cdfGrid[j]
    {
      assert d.xGrid[i] <= d.xGrid[j];
    }
  }

  /** The largest index `j < n` with `xp[j] <= x`, or -1 when there is none:
      the segment `numpy.interp`'s binary search settles on. */
  function LastAtMost(x: real, xp: seq<real>, n: nat): (j: int)
    requires n <= |xp|
    ensures -1 <= j < n
    ensures j >= 0 ==> xp[j] <= x
    ensures forall i :: j < i < n ==> x < xp[i]
  {
    if n == 0 then -1
    else if xp[n - 1] <= x then n - 1
    else LastAtMost(x, xp, n - 1)
  }

  /** The line through (x0, y0) and (x1, y1) at x, as `numpy.interp` writes it:
      `slope * (x - x0) + y0`. */
  function Lerp(x0: real, x1: real, y0: real, y1: real, x: real): real
    requires x0 < x1
  {
    (y1 - y0) / (x1 - x0) * (x - x0) + y0
  }

  lemma LerpBounds(x0: real, x1: real, y0: real, y1: real, x: real)
    requires x0 < x1 && x0 <= x <= x1 && y0 <= y1
    ensures y0 <= Lerp(x0, x1, y0, y1, x) <= y1
  {
    var s := (y1 - y0) / (x1 - x0);
    assert s >= 0.0;
    assert (x1 - x0) * s == y1 - y0;
    MulMonotone(0.0, x - x0, s);
    MulMonotone(x - x0, x1 - x0, s);
    assert Lerp(x0, x1, y0, y1, x) == (x - x0) * s + y0;
  }

  lemma LerpMonotone(x0: real, x1: real, y0: real, y1: real, x: real, x': real)
    requires x0 < x1 && y0 <= y1 && x <= x'
    ensures Lerp(x0, x1, y0, y1, x) <= Lerp(x0, x1, y0, y1, x')
  {
    var s := (y1 - y0) / (x1 - x0);
    MulMonotone(x - x0, x' - x0, s);
  }

  /** `numpy.interp(x, xp, fp)`: piecewise-linear through the points
      (xp[i], fp[i]), clamped to fp[0] left of xp[0] and to the last fp right
      of the last xp. numpy asks for non-decreasing xp. */
  function Interp(x: real, xp: seq<real>, fp: seq<real>): real
    requires 0 < |xp| == |fp|
    requires NonDecreasing(xp)
  {
    var n := |xp|;
    if x < xp[0] then fp[0]
    else if x > xp[n - 1] then fp[n - 1]
    else
      var j := LastAtMost(x, xp, n);
      if j == n - 1 || xp[j] == x then fp[j]
      else Lerp(xp[j], xp[j + 1], fp[j], fp[j + 1], x)
  }

  /** Inside [xp[0], xp[n-1]], `Interp` follows the segment that holds x. */
  lemma InterpInside(x: real, xp: seq<real>, fp: seq<real>)
    requires 0 < |xp| == |fp| && NonDecreasing(xp)
    requires xp[0] <= x <= xp[|xp| - 1]
    ensures var j := LastAtMost(x, xp, |xp|);
      0 <= j < |xp| &&
      (j == |xp| - 1 ==> Interp(x, xp, fp) == fp[j]) &&
      (j < |xp| - 1 ==>
         xp[j] <= x < xp[j + 1] &&
         Interp(x, xp, fp) == Lerp(xp[j], xp[j + 1], fp[j], fp[j + 1], x))
  {
  }

  /** Outside the tabulated range the result is clamped to an end value. */
  lemma InterpClamp(x: real, xp: seq<real>, fp: seq<real>)
    requires 0 < |xp| == |fp| && NonDecreasing(xp)
    ensures x < xp[0] ==> Interp(x, xp, fp) == fp[0]
    ensures x >= xp[|xp| - 1] ==> Interp(x, xp, fp) == fp[|fp| - 1]
  {
  }

  /** At a knot of a strictly increasing xp the result is that knot's value. */
  lemma InterpAtKnot(xp: seq<real>, fp: seq<real>, k: nat)
    requires 0 < |xp| == |fp| && StrictlyIncreasing(xp) && k < |xp|
    ensures Interp(xp[k], xp, fp) == fp[k]
  {
    var j := LastAtMost(xp[k], xp, |xp|);
    assert j == k;
  }

  /** With non-decreasing values, the result lies between the first and the last value. */
  lemma InterpWithin(x: real, xp: seq<real>, fp: seq<real>)
    requires 0 < |xp| == |fp| && NonDecreasing(xp) && NonDecreasing(fp)
    ensures fp[0] <= Interp(x, xp, fp) <= fp[|fp| - 1]
  {
    var n := |xp|;
    if xp[0] <= x <= xp[n - 1] {
      InterpInside(x, xp, fp);
      var j := LastAtMost(x, xp, n);
      if j < n - 1 {
        LerpBounds(xp[j], xp[j + 1], fp[j], fp[j + 1], x);
      }
    }
  }

  /** Between two consecutive knots of a strictly increasing xp, the result
      lies between the two knots' values. */
  lemma InterpSegment(x: real, xp: seq<real>, fp: seq<real>, k: nat)
    requires 0 < |xp| == |fp| && StrictlyIncreasing(xp) && NonDecreasing(fp)
    requires k + 1 < |xp| && xp[k] <= x <= xp[k + 1]
    ensures fp[k] <= Interp(x, xp, fp) <= fp[k + 1]
  {
    if x == xp[k + 1] {
      InterpAtKnot(xp, fp, k + 1);
    } else {
      InterpInside(x, xp, fp);
      var j := LastAtMost(x, xp, |xp|);
      assert j == k;
      LerpBounds(xp[k], xp[k + 1], fp[k], fp[k + 1], x);
    }
  }

  /** With non-decreasing knots and values, `Interp` is non-decreasing in x. */
  lemma InterpMonotone(x1: real, x2: real, xp: seq<real>, fp: seq<real>)
    requires 0 < |xp| == |fp| && NonDecreasing(xp) && NonDecreasing(fp)
    requires x1 <= x2
    ensures Interp(x1, xp, fp) <= Interp(x2, xp, fp)
  {
    var n := |xp|;
    InterpWithin(x1, xp, fp);
    InterpWithin(x2, xp, fp);
    if x1 < xp[0] || x2 > xp[n - 1] {
      // one end is clamped to an extreme value
    } else {
      InterpInside(x1, xp, fp);
      InterpInside(x2, xp, fp);
      var j1 := LastAtMost(x1, xp, n);
      var j2 := LastAtMost(x2, xp, n);
      assert j1 <= j2;
      if j1 == j2 {
        if j1 < n - 1 {
          LerpMonotone(xp[j1], xp[j1 + 1], fp[j1], fp[j1 + 1], x1, x2);
        }
      } else {
        LerpBounds(xp[j1], xp[j1 + 1], fp[j1], fp[j1 + 1], x1);
        assert fp[j1 + 1] <= fp[j2];
        if j2 < n - 1 {
          LerpBounds(xp[j2], xp[j2 + 1], fp[j2], fp[j2 + 1], x2);
        }
      }
    }
  }

  /** `SpectrumDist._ppf`: the approximate quantile of probability p. */
  function Ppf(d: SpectrumDist, p: real): (x: real)
    requires WellFormed(d)
    ensures d.a <= x <= d.b
  {
    LinspaceEvenlySpaced(d.a, d.b, GridSize);
    LinspaceBounds(d.a, d.b, GridSize);
    InterpWithin(p, d.cdfGrid, d.xGrid);
    Interp(p, d.cdfGrid, d.xGrid)
  }

  /** The quantile is clamped: below the first tabulated probability it is the
      lower support bound, at or above the last one the upper bound. */
  lemma PpfClamped(d: SpectrumDist, p: real)
    requires WellFormed(d)
    ensures p < d.cdfGrid[0] ==> Ppf(d, p) == d.a
    ensures p >= d.cdfGrid[GridSize - 1] ==> Ppf(d, p) == d.b
  {
    LinspaceEvenlySpaced(d.a, d.b, GridSize);
    InterpClamp(p, d.cdfGrid, d.xGrid);
  }

  /** With a strictly increasing tabulated CDF, the quantile of a tabulated
      probability is exactly its grid wavelength; in particular p equal to the
      first tabulated probability gives the lower support bound. */
  lemma PpfAtGridPoint(d: SpectrumDist, k: nat)
    requires WellFormed(d) && StrictlyIncreasing(d.cdfGrid) && k < GridSize
    ensures Ppf(d, d.cdfGrid[k]) == d.xGrid[k]
    ensures k == 0 ==> Ppf(d, d.cdfGrid[k]) == d.a
  {
    LinspaceEvenlySpaced(d.a, d.b, GridSize);
    InterpAtKnot(d.cdfGrid, d.xGrid, k);
  }

  /** The quantile is non-decreasing in p. */
  lemma PpfMonotone(d: SpectrumDist, p1: real, p2: real)
    requires WellFormed(d) && p1 <= p2
    ensures Ppf(d, p1) <= Ppf(d, p2)
  {
    LinspaceBounds(d.a, d.b, GridSize);
    InterpMonotone(p1, p2, d.cdfGrid, d.xGrid);
  }

  /** The approximation error is bounded by the grid spacing: a probability
      between two consecutive tabulated probabilities maps to a wavelength
      between their two grid wavelengths, which are one step apart. */
  lemma PpfWithinGridStep(d: SpectrumDist, p: real, k: nat)
    requires WellFormed(d) && StrictlyIncreasing(d.cdfGrid)
    requires k + 1 < GridSize && d.cdfGrid[k] <= p <= d.cdfGrid[k + 1]
    ensures d.xGrid[k] <= Ppf(d, p) <= d.xGrid[k] + (d.b - d.a) / ((GridSize - 1) as real)
  {
    LinspaceEvenlySpaced(d.a, d.b, GridSize);
    LinspaceBounds(d.a, d.b, GridSize);
    InterpSegment(p, d.cdfGrid, d.xGrid, k);
  }

  /** `rv_continuous.cdf` around a non-decreasing `_cdf` in [0, 1] is non-decreasing. */
  lemma SupportCdfMonotone(a: real, b: real, innerCdf: real -> real, u: real, v: real)
    requires a <= b && u <= v
    requires forall s, t :: s <= t ==> innerCdf(s) <= innerCdf(t)
    requires forall s :: 0.0 <= innerCdf(s) <= 1.0
    ensures SupportCdf(a, b, innerCdf, u) <= SupportCdf(a, b, innerCdf, v)
  {
  }

  /** The approximate quantile inverts the CDF it tabulates up to one grid
      step: the quantile of the CDF of a wavelength x inside grid cell k is
      within (max(x) - min(x)) / 999 of x. */
  lemma PpfRoundTrip(xs: seq<real>, innerCdf: real -> real, x: real, k: nat)
    requires |xs| > 0
    requires forall u, v :: u <= v ==> innerCdf(u) <= innerCdf(v)
    requires forall u :: 0.0 <= innerCdf(u) <= 1.0
    requires StrictlyIncreasing(NewSpectrumDist(xs, innerCdf).value.cdfGrid)
    requires k + 1 < GridSize
    requires NewSpectrumDist(xs, innerCdf).value.xGrid[k] <= x <= NewSpectrumDist(xs, innerCdf).value.xGrid[k + 1]
    ensures var d := NewSpectrumDist(xs, innerCdf).value;
      var step := (d.b - d.a) / ((GridSize - 1) as real);
      WellFormed(d) &&
      x - step <= Ppf(d, SupportCdf(d.a, d.b, innerCdf, x)) <= x + step
  {
    var d := NewSpectrumDist(xs, innerCdf).value;
    NewSpectrumDistWellFormed(xs, innerCdf);
    var p := SupportCdf(d.a, d.b, innerCdf, x);
    assert d.cdfGrid[k] == SupportCdf(d.a, d.b, innerCdf, d.xGrid[k]);
    assert d.cdfGrid[k + 1] == SupportCdf(d.a, d.b, innerCdf, d.xGrid[k + 1]);
    SupportCdfMonotone(d.a, d.b, innerCdf, d.xGrid[k], x);
    SupportCdfMonotone(d.a, d.b, innerCdf, x, d.xGrid[k + 1]);
    PpfWithinGridStep(d, p, k);
  }
}

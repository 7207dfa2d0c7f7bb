/** `ReflectSimulator` of platypus-simulate/tof_simulator.py: the Monte Carlo
    accumulator of a time-of-flight reflectometer. Each `Run` takes one batch
    of sampled neutrons, smears their wavelengths, histograms them into the
    direct-beam and reflected-beam tallies and appends their momentum
    transfers to a per-bin resolution kernel. Every random draw and every
    foreign result (the sampled q, the model reflectivity) is an argument. */
module TofSimulator {
  import opened Common
  import opened SpectrumDistribution
  import opened Distributions
  import opened Binning

  /** Once every kernel bin holds more recorded q values than this, the kernel stops growing. */
  const KernelCap: nat := 500000

  /** A neutron is reflected when its uniform draw is below the model reflectivity. */
  function Accepted(criterion: seq<real>, r: seq<real>): (mask: seq<bool>)
    requires |criterion| == |r|
    ensures |mask| == |r|
  {
    seq(|r|, k requires 0 <= k < |r| => criterion[k] < r[k])
  }

  /** `kernel.get(j, [])`. */
  function BinValues(kernel: map<int, seq<real>>, j: int): seq<real>
  {
    if j in kernel then kernel[j] else []
  }

  /** The kernel is untouched, or has exactly the keys 0 .. n-1. */
  ghost predicate KernelKeys(kernel: map<int, seq<real>>, n: nat)
  {
    kernel == map[] || forall j :: j in kernel <==> 0 <= j < n
  }

  /** The skip test of `run`: the kernel is non-empty and its shortest bin
      holds more than `KernelCap` values. */
  predicate CapReached(kernel: map<int, seq<real>>)
  {
    |kernel| > 0 && forall j :: j in kernel ==> |kernel[j]| > KernelCap
  }

  /** The kernel after a batch that is not skipped: each bin j is its old list
      followed by the q values whose jittered wavelength lies in [edges[j], edges[j+1]). */
  function KernelUpdate(kernel: map<int, seq<real>>, q: seq<real>, jittered: seq<real>, edges: seq<real>)
    : (updated: map<int, seq<real>>)
    requires |q| == |jittered| && |edges| >= 2
    ensures forall j :: j in updated <==> 0 <= j < |edges| - 1
  {
    map j | 0 <= j < |edges| - 1 :: BinValues(kernel, j) + KernelBinValues(q, jittered, edges, j)
  }

  /** The kernel after the first m iterations of `run`'s kernel loop. */
  ghost function UpdatePrefix(kernel: map<int, seq<real>>, q: seq<real>, jittered: seq<real>,
                              edges: seq<real>, m: nat): map<int, seq<real>>
    requires |q| == |jittered| && m <= |edges| - 1
  {
    if m == 0 then kernel
    else UpdatePrefix(kernel, q, jittered, edges, m - 1)[m - 1 :=
           BinValues(kernel, m - 1) + KernelBinValues(q, jittered, edges, m - 1)]
  }

  /** After m iterations the bins below m are updated and every other bin is
      as it was. */
  lemma {:induction false} UpdatePrefixAt(kernel: map<int, seq<real>>, q: seq<real>, jittered: seq<real>,
                                          edges: seq<real>, m: nat, j: int)
    requires |q| == |jittered| && m <= |edges| - 1
    ensures var p := UpdatePrefix(kernel, q, jittered, edges, m);
      (j in p <==> j in kernel || 0 <= j < m) &&
      BinValues(p, j) == if 0 <= j < m then BinValues(kernel, j) + KernelBinValues(q, jittered, edges, j)
                         else BinValues(kernel, j)
  {
    if m > 0 {
      UpdatePrefixAt(kernel, q, jittered, edges, m - 1, j);
      var prev := UpdatePrefix(kernel, q, jittered, edges, m - 1);
      var added := BinValues(kernel, m - 1) + KernelBinValues(q, jittered, edges, m - 1);
      assert UpdatePrefix(kernel, q, jittered, edges, m) == prev[m - 1 := added];
    }
  }

  /** Running the loop over all N bins of an untouched or complete kernel
      yields `KernelUpdate`. */
  lemma UpdatePrefixComplete(kernel: map<int, seq<real>>, q: seq<real>, jittered: seq<real>, edges: seq<real>)
    requires |q| == |jittered| && |edges| >= 2 && KernelKeys(kernel, |edges| - 1)
    ensures UpdatePrefix(kernel, q, jittered, edges, |edges| - 1) == KernelUpdate(kernel, q, jittered, edges)
  {
    var p := UpdatePrefix(kernel, q, jittered, edges, |edges| - 1);
    var u := KernelUpdate(kernel, q, jittered, edges);
    forall j | true
      ensures (j in p <==> j in u) && (j in p ==> p[j] == u[j])
    {
      UpdatePrefixAt(kernel, q, jittered, edges, |edges| - 1, j);
    }
  }

  /** A batch only appends: each bin's old list is a prefix of its new one, and
      it grows by the batch's histogram count for that bin, less the values on
      the last edge for the last bin. */
  lemma KernelUpdateAppends(kernel: map<int, seq<real>>, q: seq<real>, jittered: seq<real>,
                            edges: seq<real>, j: int)
    requires |q| == |jittered| && |edges| >= 2 && StrictlyIncreasing(edges)
    requires 0 <= j < |edges| - 1
    ensures var updated := KernelUpdate(kernel, q, jittered, edges);
      BinValues(kernel, j) <= updated[j] &&
      (j < |edges| - 2 ==>
         |updated[j]| == |BinValues(kernel, j)| + Histogram(jittered, edges)[j]) &&
      (j == |edges| - 2 ==>
         |updated[j]| + CountEqual(jittered, edges[|edges| - 1])
           == |BinValues(kernel, j)| + Histogram(jittered, edges)[j])
  {
    KernelMatchesHistogram(q, jittered, edges, j);
  }

  /** Acceptance of a concatenated batch is acceptance of each part. */
  lemma AcceptedConcat(c1: seq<real>, r1: seq<real>, c2: seq<real>, r2: seq<real>)
    requires |c1| == |r1| && |c2| == |r2|
    ensures Accepted(c1 + c2, r1 + r2) == Accepted(c1, r1) + Accepted(c2, r2)
  {
    var m := Accepted(c1 + c2, r1 + r2);
    var parts := Accepted(c1, r1) + Accepted(c2, r2);
    forall k | 0 <= k < |m|
      ensures m[k] == parts[k]
    {
      if k >= |r1| {
        assert (c1 + c2)[k] == c2[k - |r1|] && (r1 + r2)[k] == r2[k - |r1|];
      }
    }
  }

  /** Bin j of a kernel update is its old list followed by the batch's values for j. */
  lemma KernelUpdateBin(kernel: map<int, seq<real>>, q: seq<real>, v: seq<real>, edges: seq<real>, j: int)
    requires |q| == |v| && 0 <= j < |edges| - 1
    ensures BinValues(KernelUpdate(kernel, q, v, edges), j) == BinValues(kernel, j) + KernelBinValues(q, v, edges, j)
  {
  }

  lemma KernelUpdateConcatBin(kernel: map<int, seq<real>>, q1: seq<real>, v1: seq<real>,
                              q2: seq<real>, v2: seq<real>, edges: seq<real>, j: int)
    requires |q1| == |v1| && |q2| == |v2| && 0 <= j < |edges| - 1
    ensures BinValues(KernelUpdate(KernelUpdate(kernel, q1, v1, edges), q2, v2, edges), j)
         == BinValues(KernelUpdate(kernel, q1 + q2, v1 + v2, edges), j)
  {
    var once := KernelUpdate(kernel, q1, v1, edges);
    var k0, a, b := BinValues(kernel, j), KernelBinValues(q1, v1, edges, j), KernelBinValues(q2, v2, edges, j);
    KernelUpdateBin(kernel, q1, v1, edges, j);
    KernelUpdateBin(once, q2, v2, edges, j);
    KernelUpdateBin(kernel, q1 + q2, v1 + v2, edges, j);
    KernelBinValuesConcat(q1, v1, q2, v2, edges, j);
    SeqAppendAssoc(k0, a, b);
  }

  lemma SeqAppendAssoc(x: seq<real>, y: seq<real>, z: seq<real>)
    ensures (x + y) + z == x + (y + z)
  {
  }

  /** Two kernel updates in a row append what one update with the
      concatenated batch appends. */
  lemma KernelUpdateConcat(kernel: map<int, seq<real>>, q1: seq<real>, v1: seq<real>,
                           q2: seq<real>, v2: seq<real>, edges: seq<real>)
    requires |q1| == |v1| && |q2| == |v2| && |edges| >= 2
    ensures KernelUpdate(KernelUpdate(kernel, q1, v1, edges), q2, v2, edges)
         == KernelUpdate(kernel, q1 + q2, v1 + v2, edges)
  {
    var twice := KernelUpdate(KernelUpdate(kernel, q1, v1, edges), q2, v2, edges);
    var joined := KernelUpdate(kernel, q1 + q2, v1 + v2, edges);
    forall j | 0 <= j < |edges| - 1
      ensures twice[j] == joined[j]
    {
      KernelUpdateConcatBin(kernel, q1, v1, q2, v2, edges, j);
    }
  }

  /** Batch additivity of `run`: two batches in a row leave the tallies, and
      (when the cap is not reached in between) the kernel, as one batch of
      both would. With `Run`'s postcondition this makes 1000 samples followed
      by 2000 samples accumulate what 3000 samples do. */
  lemma TwoBatchesAsOne(direct: seq<nat>, reflected: seq<nat>, kernel: map<int, seq<real>>,
                        edges: seq<real>, dlambda: real, gaussian: bool,
                        q1: seq<real>, w1: seq<real>, r1: seq<real>, c1: seq<real>, n1: seq<real>,
                        q2: seq<real>, w2: seq<real>, r2: seq<real>, c2: seq<real>, n2: seq<real>)
    requires |edges| >= 2 && |direct| == |edges| - 1 && |reflected| == |edges| - 1
    requires |q1| == |w1| == |r1| == |c1| == |n1| && |q2| == |w2| == |r2| == |c2| == |n2|
    ensures var j1 := JitterAll(w1, n1, dlambda, gaussian);
      var j2 := JitterAll(w2, n2, dlambda, gaussian);
      var j := JitterAll(w1 + w2, n1 + n2, dlambda, gaussian);
      AddCounts(AddCounts(direct, Histogram(j1, edges)), Histogram(j2, edges))
        == AddCounts(direct, Histogram(j, edges)) &&
      AddCounts(AddCounts(reflected, Histogram(Select(j1, Accepted(c1, r1)), edges)),
                Histogram(Select(j2, Accepted(c2, r2)), edges))
        == AddCounts(reflected, Histogram(Select(j, Accepted(c1 + c2, r1 + r2)), edges)) &&
      KernelUpdate(KernelUpdate(kernel, q1, j1, edges), q2, j2, edges)
        == KernelUpdate(kernel, q1 + q2, j, edges)
  {
    var j1 := JitterAll(w1, n1, dlambda, gaussian);
    var j2 := JitterAll(w2, n2, dlambda, gaussian);
    JitterAllConcat(w1, n1, w2, n2, dlambda, gaussian);
    AcceptedConcat(c1, r1, c2, r2);
    SelectConcat(j1, Accepted(c1, r1), j2, Accepted(c2, r2));
    TallyConcat(direct, j1, j2, edges);
    TallyConcat(reflected, Select(j1, Accepted(c1, r1)), Select(j2, Accepted(c2, r2)), edges);
    KernelUpdateConcat(kernel, q1, j1, q2, j2, edges);
  }

  /** The cap is a property of the whole kernel, not of one bin: a bin already
      over the cap keeps growing while another bin is still under it. */
  lemma CapNeedsEveryBin()
    ensures var kernel := map[0 := seq(KernelCap + 1, _ => 0.0), 1 := []];
      var updated := KernelUpdate(kernel, [0.5], [1.5], [1.0, 2.0, 3.0]);
      |kernel[0]| > KernelCap && !CapReached(kernel) && |updated[0]| == KernelCap + 2
  {
    var kernel := map[0 := seq(KernelCap + 1, _ => 0.0), 1 := []];
    var edges := [1.0, 2.0, 3.0];
    assert 1 in kernel && |kernel[1]| <= KernelCap;
    assert KernelBinValues([0.5], [1.5], edges, 0) == [0.5];
  }

  /** `self.direct_beam += h`: element-wise accumulation into a tally. */
  method AddInPlace(a: array<nat>, h: seq<nat>)
    requires a.Length == |h|
    modifies a
    ensures a[..] == AddCounts(old(a[..]), h)
  {
    for i := 0 to a.Length
      invariant forall k :: 0 <= k < i ==> a[k] == old(a[k]) + h[k]
      invariant forall k :: i <= k < a.Length ==> a[k] == old(a[k])
    {
      a[i] := a[i] + h[i];
    }
  }

  /** One cell of the resolution kernel output. */
  datatype Cell = Missing | Value(v: real)

  /** `numpy.histogram(values, density=True, bins=31)`: densities and bin edges. */
  datatype Histo = Histo(density: seq<real>, edges: seq<real>)

  /** The largest number of density bins among the histograms (`max_bins`). */
  function MaxBins(hs: seq<Histo>): (m: nat)
    requires |hs| > 0
    ensures forall i :: 0 <= i < |hs| ==> |hs[i].density| <= m
    ensures exists i :: 0 <= i < |hs| && |hs[i].density| == m
  {
    if |hs| == 1 then |hs[0].density|
    else
      var rest := MaxBins(hs[..|hs| - 1]);
      var last := |hs[|hs| - 1].density|;
      if last > rest then last else rest
  }

  /** Cell (row, col) of one wavelength bin's entry: row 0 holds the midpoints
      of the density bins, row 1 the densities, and columns past the
      histogram's length are missing. */
  function KernelCell(h: Histo, row: int, col: int): Cell
    requires |h.edges| == |h.density| + 1 && 0 <= col
  {
    if col >= |h.density| then Missing
    else if row == 0 then Value(0.5 * (h.edges[col] + h.edges[col + 1]))
    else Value(h.density[col])
  }

  /** The density histograms of the kernel's bins in the map's iteration
      order, built by appending one per bin as `resolution_kernel`'s first
      loop does. The map is iterated in key order 0 .. n-1: the first
      update inserts the keys in that order and later updates only reassign
      them. */
  function KernelHistos(kernel: map<int, seq<real>>, n: nat, densityHistogram: seq<real> -> Histo)
    : (hs: seq<Histo>)
    requires forall j :: 0 <= j < n ==> j in kernel
    ensures |hs| == n
  {
    if n == 0 then []
    else KernelHistos(kernel, n - 1, densityHistogram) + [densityHistogram(kernel[n - 1])]
  }

  /** Entry j of the appended list is the histogram of bin j. */
  lemma {:induction false} KernelHistosAt(kernel: map<int, seq<real>>, n: nat, densityHistogram: seq<real> -> Histo)
    requires forall j :: 0 <= j < n ==> j in kernel
    ensures forall j :: 0 <= j < n ==> KernelHistos(kernel, n, densityHistogram)[j] == densityHistogram(kernel[j])
  {
    if n > 0 {
      KernelHistosAt(kernel, n - 1, densityHistogram);
    }
  }

  /** `list.reverse()`. */
  function Reverse(s: seq<Histo>): (r: seq<Histo>)
    ensures |r| == |s|
  {
    if |s| == 0 then [] else [s[|s| - 1]] + Reverse(s[..|s| - 1])
  }

  /** Reversal puts entry |s|-1-k at position k. */
  lemma {:induction false} ReverseAt(s: seq<Histo>)
    ensures forall k :: 0 <= k < |s| ==> Reverse(s)[k] == s[|s| - 1 - k]
  {
    if |s| > 0 {
      var front := s[..|s| - 1];
      ReverseAt(front);
      forall k | 0 < k < |s|
        ensures Reverse(s)[k] == s[|s| - 1 - k]
      {
        assert Reverse(s)[k] == Reverse(front)[k - 1];
      }
    }
  }

  /** The histogram list after `histos.reverse()`: row k comes from bin n-1-k,
      so the lowest q (longest wavelength) is first. */
  function KernelRows(kernel: map<int, seq<real>>, n: nat, densityHistogram: seq<real> -> Histo)
    : (rows: seq<Histo>)
    requires forall j :: 0 <= j < n ==> j in kernel
    ensures |rows| == n
    ensures forall k :: 0 <= k < n ==> rows[k] == densityHistogram(kernel[n - 1 - k])
  {
    var hs := KernelHistos(kernel, n, densityHistogram);
    KernelHistosAt(kernel, n, densityHistogram);
    ReverseAt(hs);
    Reverse(hs)
  }

  /** One iteration of the fill loop of `resolution_kernel`: row k of the
      output gets the midpoints and densities of histogram h, and nothing
      else changes. */
  method FillRow(a: array3<Cell>, k: nat, h: Histo)
    requires k < a.Length0 && a.Length1 == 2
    requires |h.edges| == |h.density| + 1 && |h.density| <= a.Length2
    requires forall row, col :: 0 <= row < 2 && 0 <= col < a.Length2 ==> a[k, row, col] == Missing
    modifies a
    ensures forall row, col :: 0 <= row < 2 && 0 <= col < a.Length2 ==> a[k, row, col] == KernelCell(h, row, col)
    ensures forall k', row, col :: 0 <= k' < a.Length0 && k' != k && 0 <= row < 2 && 0 <= col < a.Length2 ==>
      a[k', row, col] == old(a[k', row, col])
  {
    var p, x := h.density, h.edges;
    for col := 0 to |p|
      invariant forall row, c :: 0 <= row < 2 && 0 <= c < col ==> a[k, row, c] == KernelCell(h, row, c)
      invariant forall row, c :: 0 <= row < 2 && col <= c < a.Length2 ==> a[k, row, c] == Missing
      invariant forall k', row, c :: 0 <= k' < a.Length0 && k' != k && 0 <= row < 2 && 0 <= c < a.Length2 ==>
        a[k', row, c] == old(a[k', row, c])
    {
      a[k, 0, col] := Value(0.5 * (x[col] + x[col + 1]));
      a[k, 1, col] := Value(p[col]);
    }
  }

  class ReflectSimulator {
    /** Wavelength bin edges: N + 1 strictly increasing values for N bins. */
    const edges: seq<real>
    const numBins: nat
    const angle: real
    /** Resolutions as fractions. */
    const dlambda: real
    const dtheta: real
    const rebin: real
    /** Nominal bin-centre wavelengths (the nominal q derived from them is foreign). */
    const binCentres: seq<real>
    const forceGaussian: bool
    const forceUniformWavelength: bool
    const wavelengthDist: WavelengthDist
    const angularDist: AngularDist
    /** Tallies of all and of accepted neutrons per wavelength bin. */
    const directBeam: array<nat>
    const reflectedBeam: array<nat>
    /** Recorded q values per wavelength bin. */
    var resKernel: map<int, seq<real>>

    ghost predicate Valid()
      reads this, directBeam, reflectedBeam
    {
      numBins >= 1 && |edges| == numBins + 1 && StrictlyIncreasing(edges) &&
      directBeam != reflectedBeam &&
      directBeam.Length == numBins && reflectedBeam.Length == numBins &&
      (forall i :: 0 <= i < numBins ==> reflectedBeam[i] <= directBeam[i]) &&
      KernelKeys(resKernel, numBins)
    }

    /** `ReflectSimulator.__init__`. The bin edges (from
        `calculate_wavelength_bins`), the spectrum table and its CDF (from the
        instrument file and spline), and the divergence `div`, `alpha`, `beta`
        (from the slit optimiser and `general.div`) are given. */
    constructor (edges: seq<real>, angle: real, dthetaPercent: real, lo: real, hi: real,
                 dlambdaPercent: real, rebinPercent: real,
                 forceGaussian: bool, forceUniformWavelength: bool,
                 spectrumWavelengths: seq<real>, spectrumCdf: real -> real,
                 div: real, alpha: real, beta: real)
      requires |edges| >= 2 && StrictlyIncreasing(edges)
      requires !forceUniformWavelength ==> |spectrumWavelengths| > 0
      requires !forceGaussian ==> alpha != 0.0
      ensures Valid() && fresh(directBeam) && fresh(reflectedBeam)
      ensures this.edges == edges && numBins == |edges| - 1 && this.angle == angle
      ensures dlambda == Fraction(dlambdaPercent) && dtheta == Fraction(dthetaPercent)
      ensures rebin == Fraction(rebinPercent)
      ensures binCentres == BinCentres(edges)
      ensures this.forceGaussian == forceGaussian
      ensures this.forceUniformWavelength == forceUniformWavelength
      ensures wavelengthDist == if forceUniformWavelength then UniformWavelengths(lo, hi)
                                else Spectrum(NewSpectrumDist(spectrumWavelengths, spectrumCdf).value)
      ensures angularDist == if forceGaussian then GaussianDivergence(div)
                             else TrapezoidDivergence(alpha, beta)
      ensures directBeam[..] == seq(numBins, _ => 0) && reflectedBeam[..] == seq(numBins, _ => 0)
      ensures resKernel == map[]
    {
      this.edges := edges;
      numBins := |edges| - 1;
      this.angle := angle;
      dlambda := Fraction(dlambdaPercent);
      rebin := Fraction(rebinPercent);
      binCentres := BinCentres(edges);
      directBeam := new nat[|edges| - 1](_ => 0);
      reflectedBeam := new nat[|edges| - 1](_ => 0);
      this.forceUniformWavelength := forceUniformWavelength;
      wavelengthDist := if forceUniformWavelength then UniformWavelengths(lo, hi)
                        else Spectrum(NewSpectrumDist(spectrumWavelengths, spectrumCdf).value);
      this.forceGaussian := forceGaussian;
      resKernel := map[];
      dtheta := Fraction(dthetaPercent);
      angularDist := if forceGaussian then GaussianDivergence(div)
                     else TrapezoidDivergence(alpha, beta);
    }

    /** `run` for one batch: q, wavelengths, reflectivities r, acceptance
        draws and jitter noise, one entry per sampled neutron. */
    method Run(q: seq<real>, wavelengths: seq<real>, r: seq<real>, criterion: seq<real>, noise: seq<real>)
      requires Valid()
      requires |q| == |wavelengths| == |r| == |criterion| == |noise|
      modifies this, directBeam, reflectedBeam
      ensures Valid()
      ensures var jittered := JitterAll(wavelengths, noise, dlambda, forceGaussian);
        directBeam[..] == AddCounts(old(directBeam[..]), Histogram(jittered, edges)) &&
        reflectedBeam[..] ==
          AddCounts(old(reflectedBeam[..]), Histogram(Select(jittered, Accepted(criterion, r)), edges)) &&
        resKernel == if CapReached(old(resKernel)) then old(resKernel)
                     else KernelUpdate(old(resKernel), q, jittered, edges)
      ensures forall i :: 0 <= i < numBins ==>
        old(directBeam[i]) <= directBeam[i] && old(reflectedBeam[i]) <= reflectedBeam[i]
      ensures !CapReached(old(resKernel)) ==> forall j :: j in resKernel <==> 0 <= j < numBins
    {
      var accepted := Accepted(criterion, r);
      var jittered := JitterAll(wavelengths, noise, dlambda, forceGaussian);

      var hist := Histogram(jittered, edges);
      AddInPlace(directBeam, hist);
      var histAccepted := Histogram(Select(jittered, accepted), edges);
      AddInPlace(reflectedBeam, histAccepted);
      HistogramSelectBelow(jittered, accepted, edges);

      if CapReached(resKernel) {
        return;
      }
      AppendToKernel(q, jittered);
    }

    /** The kernel loop of `run`: bin i-1 gets the q values whose digitized
        wavelength index is i, for i = 1 .. N. */
    method AppendToKernel(q: seq<real>, jittered: seq<real>)
      requires |edges| >= 2 && StrictlyIncreasing(edges) && |q| == |jittered|
      requires KernelKeys(resKernel, |edges| - 1)
      modifies this
      ensures resKernel == KernelUpdate(old(resKernel), q, jittered, edges)
    {
      var binLoc := DigitizeAll(jittered, edges);
      ghost var before := resKernel;
      var kernel := resKernel;
      var i := 1;
      while i < |edges|
        invariant 1 <= i <= |edges|
        invariant kernel == UpdatePrefix(before, q, jittered, edges, i - 1)
      {
        PickDigitized(q, jittered, edges, i - 1);
        UpdatePrefixAt(before, q, jittered, edges, i - 1, i - 1);
        var qForBin := Pick(q, binLoc, i);
        var soFar := BinValues(kernel, i - 1);
        kernel := kernel[i - 1 := soFar + qForBin];
        i := i + 1;
      }
      UpdatePrefixComplete(before, q, jittered, edges);
      resKernel := kernel;
    }

    /** `resolution_kernel`: per wavelength bin, lowest q (longest wavelength)
        first, the density histogram of its recorded q values laid out as
        [midpoints, densities] and padded to the longest histogram with
        `Missing`. `numpy.max` of no histograms raises before any run, which
        is `None` here. The density histogram itself is a parameter. */
    method ResolutionKernel(densityHistogram: seq<real> -> Histo) returns (kernel: Option<array3<Cell>>)
      requires Valid()
      requires forall v :: |densityHistogram(v).edges| == |densityHistogram(v).density| + 1
      ensures kernel.None? <==> resKernel == map[]
      ensures kernel.Some? ==> fresh(kernel.value)
      ensures kernel.Some? ==>
        var a := kernel.value;
        var rows := KernelRows(resKernel, numBins, densityHistogram);
        a.Length0 == numBins && a.Length1 == 2 &&
        (forall k :: 0 <= k < numBins ==> |rows[k].density| <= a.Length2) &&
        (exists k :: 0 <= k < numBins && |rows[k].density| == a.Length2) &&
        (forall k, row, col :: 0 <= k < numBins && 0 <= row < 2 && 0 <= col < a.Length2 ==>
           a[k, row, col] == KernelCell(rows[k], row, col))
    {
      if |resKernel| == 0 {
        return None;
      }
      assert resKernel != map[];
      var histos: seq<Histo> := [];
      for j := 0 to numBins
        invariant histos == KernelHistos(resKernel, j, densityHistogram)
      {
        histos := histos + [densityHistogram(resKernel[j])];
      }
      histos := Reverse(histos);
      assert histos == KernelRows(resKernel, numBins, densityHistogram);
      var maxBins := MaxBins(histos);
      var a := new Cell[numBins, 2, maxBins]((_, _, _) => Missing);
      for k := 0 to numBins
        invariant forall k', row, col :: 0 <= k' < k && 0 <= row < 2 && 0 <= col < maxBins ==>
          a[k', row, col] == KernelCell(histos[k'], row, col)
        invariant forall k', row, col :: k <= k' < numBins && 0 <= row < 2 && 0 <= col < maxBins ==>
          a[k', row, col] == Missing
      {
        FillRow(a, k, histos[k]);
      }
      kernel := Some(a);
    }
  }
}

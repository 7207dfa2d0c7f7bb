/** The sampling distributions `ReflectSimulator.__init__` sets up
    (platypus-simulate/tof_simulator.py): percentages turned into fractions,
    the uniform wavelength distribution, the trapezoidal (or Gaussian)
    angular-divergence distribution, the wavelength jitter of `run`, and the
    nominal bin centres. The slit optimiser and `general.div` are foreign:
    their results (div, alpha, beta) are parameters. */
module Distributions {
  import opened Common
  import opened SpectrumDistribution

  /** FWHM of a Gaussian divided by its standard deviation. */
  const FwhmPerSigma: real := 2.3548
  /** FWHM of the Gaussian approximation of a uniform distribution, per unit full width. */
  const UniformFwhmPerWidth: real := 0.68

  /** A resolution given as a percentage, as a fraction. */
  function Fraction(percent: real): (f: real)
    ensures f * 100.0 == percent
  {
    percent / 100.0
  }

  /** The two wavelength generators: scipy's `uniform(loc, scale)` with
      support [loc, loc + scale], or the empirical spectrum. */
  datatype WavelengthDist = Uniform(loc: real, scale: real) | Spectrum(dist: SpectrumDist)

  /** The uniform generator used with `force_uniform_wavelength`: it starts one
      wavelength unit below `lo_wavelength` and its support ends at `hi_wavelength`. */
  function UniformWavelengths(lo: real, hi: real): (w: WavelengthDist)
    ensures w.Uniform?
    ensures w.loc == lo - 1.0 && w.loc + w.scale == hi
    ensures lo <= hi ==> w.scale >= 1.0
  {
    Uniform(lo - 1.0, hi - lo + 1.0)
  }

  ghost predicate ValidWavelengthDist(w: WavelengthDist)
  {
    match w
    case Uniform(_, scale) => scale > 0.0
    case Spectrum(d) => WellFormed(d)
  }

  /** Support of a wavelength generator. */
  function Support(w: WavelengthDist): (lohi: (real, real))
  {
    match w
    case Uniform(loc, scale) => (loc, loc + scale)
    case Spectrum(d) => (d.a, d.b)
  }

  /** `rvs` for one draw u of the standard uniform generator: scipy maps it
      through `_ppf` (`loc + scale * u` for the uniform distribution). */
  function Sample(w: WavelengthDist, u: real): (x: real)
    requires ValidWavelengthDist(w) && 0.0 <= u < 1.0
    ensures Support(w).0 <= x <= Support(w).1
    ensures w.Uniform? ==> x < Support(w).1
  {
    if w.Uniform? then
      UniformDrawWithin(w.loc, w.scale, u);
      w.loc + w.scale * u
    else Ppf(w.dist, u)
  }

  lemma UniformDrawWithin(loc: real, scale: real, u: real)
    requires 0.0 < scale && 0.0 <= u < 1.0
    ensures loc <= loc + scale * u < loc + scale
  {
    MulMonotone(0.0, u, scale);
    assert scale - scale * u == scale * (1.0 - u);
  }

  /** The angular-divergence generators: a centred normal distribution, or
      scipy's `trapz(c, d, loc, scale)` rising on [loc, loc + c*scale], flat up to
      loc + d*scale and falling to loc + scale. */
  datatype AngularDist = Normal(sigma: real) | Trapezoid(c: real, d: real, loc: real, scale: real)

  /** The Gaussian approximation used with `force_gaussian`: the divergence is a FWHM. */
  function GaussianDivergence(div: real): (g: AngularDist)
    ensures g.Normal? && g.sigma * FwhmPerSigma == div
  {
    Normal(div / FwhmPerSigma)
  }

  /** The trapezoid for a divergence with half-width alpha of the full
      distribution and half-width beta of its flat top. */
  function TrapezoidDivergence(alpha: real, beta: real): (t: AngularDist)
    requires alpha != 0.0
    ensures t.Trapezoid?
    ensures t.loc == -alpha && t.loc + t.scale == alpha
    ensures t.c + t.d == 1.0
    ensures t.loc + t.c * t.scale == -beta && t.loc + t.d * t.scale == beta
    ensures 0.0 <= beta <= alpha ==> 0.0 <= t.c <= t.d <= 1.0
  {
    var c := (alpha - beta) / 2.0 / alpha;
    var d := (alpha + beta) / 2.0 / alpha;
    assert c * (2.0 * alpha) == alpha - beta;
    assert d * (2.0 * alpha) == alpha + beta;
    Trapezoid(c, d, -alpha, 2.0 * alpha)
  }

  /** `run`'s chopper smearing of one wavelength, where `dlambda` is the
      wavelength resolution as a fraction: the wavelength is scaled by
      `JitterFactor`, which adds Gaussian noise scaled by dlambda / 2.3548 or
      uniform noise scaled by dlambda / 0.68. */
  function Jitter(wavelength: real, dlambda: real, noise: real, gaussian: bool): real
  {
    wavelength * JitterFactor(dlambda, noise, gaussian)
  }

  function JitterFactor(dlambda: real, noise: real, gaussian: bool): real
  {
    if gaussian then 1.0 + dlambda / FwhmPerSigma * noise
    else 1.0 + dlambda / UniformFwhmPerWidth * noise
  }

  /** With uniform noise in [-0.5, 0.5] a jittered wavelength stays within
      lambda * (1 +/- dlambda / (2 * 0.68)). */
  lemma UniformJitterBounds(wavelength: real, dlambdaPercent: real, noise: real)
    requires 0.0 <= wavelength && 0.0 <= dlambdaPercent && -0.5 <= noise <= 0.5
    ensures var half := Fraction(dlambdaPercent) / (2.0 * UniformFwhmPerWidth);
      wavelength * (1.0 - half) <= Jitter(wavelength, Fraction(dlambdaPercent), noise, false) &&
      Jitter(wavelength, Fraction(dlambdaPercent), noise, false) <= wavelength * (1.0 + half)
  {
    var half := Fraction(dlambdaPercent) / (2.0 * UniformFwhmPerWidth);
    var f := JitterFactor(Fraction(dlambdaPercent), noise, false);
    UniformFactorWithin(Fraction(dlambdaPercent), noise);
    MulMonotone(1.0 - half, f, wavelength);
    MulMonotone(f, 1.0 + half, wavelength);
  }

  lemma UniformFactorWithin(dlambda: real, noise: real)
    requires 0.0 <= dlambda && -0.5 <= noise <= 0.5
    ensures var half := dlambda / (2.0 * UniformFwhmPerWidth);
      1.0 - half <= JitterFactor(dlambda, noise, false) <= 1.0 + half
  {
    var width := dlambda / UniformFwhmPerWidth;
    MulMonotone(-0.5, noise, width);
    MulMonotone(noise, 0.5, width);
  }

  /** The jittered wavelengths of a whole batch. */
  function JitterAll(wavelengths: seq<real>, noise: seq<real>, dlambda: real, gaussian: bool): (j: seq<real>)
    requires |wavelengths| == |noise|
    ensures |j| == |wavelengths|
  {
    seq(|wavelengths|, k requires 0 <= k < |wavelengths| =>
      Jitter(wavelengths[k], dlambda, noise[k], gaussian))
  }

  /** Jittering a concatenated batch jitters each part. */
  lemma JitterAllConcat(w1: seq<real>, n1: seq<real>, w2: seq<real>, n2: seq<real>, dlambda: real, gaussian: bool)
    requires |w1| == |n1| && |w2| == |n2|
    ensures JitterAll(w1 + w2, n1 + n2, dlambda, gaussian)
         == JitterAll(w1, n1, dlambda, gaussian) + JitterAll(w2, n2, dlambda, gaussian)
  {
    var j := JitterAll(w1 + w2, n1 + n2, dlambda, gaussian);
    var parts := JitterAll(w1, n1, dlambda, gaussian) + JitterAll(w2, n2, dlambda, gaussian);
    forall k | 0 <= k < |j|
      ensures j[k] == parts[k]
    {
      if k >= |w1| {
        assert (w1 + w2)[k] == w2[k - |w1|] && (n1 + n2)[k] == n2[k - |w1|];
      }
    }
  }

  /** Centres of the wavelength bins, `0.5 * (edges[1:] + edges[:-1])`:
      each strictly inside its bin when the bin's edges are ordered. */
  function BinCentres(edges: seq<real>): (c: seq<real>)
    requires |edges| >= 1
    ensures |c| == |edges| - 1
    ensures forall i :: 0 <= i < |c| && edges[i] < edges[i + 1] ==> edges[i] < c[i] < edges[i + 1]
  {
    seq(|edges| - 1, i requires 0 <= i < |edges| - 1 => 0.5 * (edges[i + 1] + edges[i]))
  }
}

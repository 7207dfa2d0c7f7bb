# Time-of-flight reflectometry simulator and volume-fraction slab model

This project models, in Dafny, two pieces of a neutron reflectometry
toolkit.

The first is the Monte Carlo simulator of the *PLATYPUS* time-of-flight
reflectometer (`platypus-simulate/tof_simulator.py`):

- `SpectrumDist` draws wavelengths from an empirical spectrum. Its
  quantile function is approximated by a 1000-point CDF table from
  `min(x)` to `max(x)` and `numpy.interp`.
- `ReflectSimulator.__init__` turns the percentage resolutions into
  fractions. It sets up the uniform or spectrum wavelength generator and
  the trapezoidal (or Gaussian) angular-divergence generator, and starts
  the direct-beam and reflected-beam tallies at zero.
- `ReflectSimulator.run` takes one batch of neutrons:
  - it accepts a neutron when its uniform draw is below the reflectivity;
  - it smears the wavelengths;
  - it histograms all neutrons into the direct beam and the accepted ones
    into the reflected beam;
  - unless the kernel is full, it appends each neutron's q to the
    kernel list of its wavelength bin.
- `resolution_kernel` lays the per-bin density histograms of those q
  values out as an N × 2 × max_bins array, lowest q first.

The second is the slab table of the volume-fraction profile component
`VFMaxEnt` (`vf_maxent/vf_maxent.py`): slab thickness, adsorbed amount and
the n × 5 slab table.

Floats are Dafny `real`. Every random draw and every result of code outside
this core is an argument:

- the sampled q values, wavelengths, reflectivities, acceptance draws and
  jitter noise of a batch;
- the wavelength bin edges;
- the divergences `div`, `alpha` and `beta`;
- the spectrum table and its integrated spline;
- the 31-bin density histogram inside `resolution_kernel`.

Files:

- `common.dfy`: the `Option` result, sums and the monotonicity predicates.
- `spectrum_dist.dfy`: the CDF grid, `numpy.interp` and the approximate
  quantile.
- `distributions.dfy`: the distribution parameters, wavelength jitter and
  bin centres.
- `binning.dfy`: `numpy.histogram`, `numpy.digitize` and the mask
  selection, with their lemmas.
- `simulator.dfy`: the `ReflectSimulator` class. Its tallies are arrays
  updated in place, and its kernel is a map rewritten bin by bin.
- `vf_maxent.dfy`: `VFMaxEnt`.

The kernel is a Python dict, and `resolution_kernel` iterates its values in
insertion order. The model iterates it in key order 0 .. N-1
(`KernelHistos`). The two agree: the first run that is not skipped inserts
the keys 0 .. N-1 in that order (tof_simulator.py:329-338), and later runs
only reassign existing keys, which keeps their positions.

Where the code and its comments disagree, the model follows the code:

- The kernel cap counts as reached only when EVERY bin holds more than
  500000 values. The comment at `tof_simulator.py:320` speaks of 100000.
  `CapNeedsEveryBin` shows that one bin over the cap does not stop the
  kernel from growing.
- `numpy.interp`'s clamp at the low end is strict. For `p == cdf_grid[0]`
  it returns the last grid point whose CDF equals `cdf_grid[0]`. That is
  `x_grid[0]` only when the CDF is strictly increasing there
  (`PpfAtGridPoint`).

## Model

| member | source | states |
|---|---|---|
| SpectrumDistribution.Linspace | platypus-simulate/tof_simulator.py:51 | the `numpy.linspace` grid has exactly n points |
| SpectrumDistribution.LinspaceEvenlySpaced | platypus-simulate/tof_simulator.py:51 | the grid starts at lo, ends at hi, and consecutive points differ by exactly (hi-lo)/(n-1) |
| SpectrumDistribution.LinspaceBounds | platypus-simulate/tof_simulator.py:51 | with lo <= hi the grid is non-decreasing and every point lies in [lo, hi] |
| SpectrumDistribution.MinOf | platypus-simulate/tof_simulator.py:34 | `numpy.min` is an element of the spectrum and at most every element |
| SpectrumDistribution.MaxOf | platypus-simulate/tof_simulator.py:34 | `numpy.max` is an element of the spectrum and at least every element |
| SpectrumDistribution.NewSpectrumDist | platypus-simulate/tof_simulator.py:51-52 | None exactly for an empty spectrum. Otherwise: the support ends are min(x) and max(x); both grids have 1000 points; the x grid runs evenly from min to max; the CDF grid is 1 at the last point and 0 at the first when the support is not a single point |
| SpectrumDistribution.NewSpectrumDistWellFormed | platypus-simulate/tof_simulator.py:51-52 | a non-decreasing CDF inside [0, 1] gives a non-decreasing CDF grid, so the distribution can be sampled |
| SpectrumDistribution.SupportCdf | platypus-simulate/tof_simulator.py:52 | `rv_continuous.cdf`: 1 at or above the upper support bound, 0 at or below the lower one, the spline CDF strictly inside |
| SpectrumDistribution.SupportCdfMonotone | platypus-simulate/tof_simulator.py:52 | with a non-decreasing inner CDF in [0, 1], the clamped CDF is non-decreasing |
| SpectrumDistribution.LastAtMost | platypus-simulate/tof_simulator.py:95-97 | the segment `numpy.interp` uses is the last knot at or below x (-1 when none): every later knot is above x |
| SpectrumDistribution.Lerp | platypus-simulate/tof_simulator.py:95-97 | numpy's interpolation formula slope*(x-x0)+y0 on one segment (its bounds and monotonicity are the two Lerp lemmas) |
| SpectrumDistribution.Interp | platypus-simulate/tof_simulator.py:95-97 | `numpy.interp`: fp[0] below the first knot, the last value at or above the last knot, fp[j] at a knot, otherwise interpolation from the last knot j at or below x (properties in the Interp lemmas) |
| SpectrumDistribution.LerpBounds | platypus-simulate/tof_simulator.py:95-97 | linear interpolation on a segment stays between the segment's end values |
| SpectrumDistribution.LerpMonotone | platypus-simulate/tof_simulator.py:95-97 | linear interpolation with rising end values is non-decreasing in x |
| SpectrumDistribution.InterpInside | platypus-simulate/tof_simulator.py:95-97 | inside the knot range the result is the knot's value, or the interpolation on the segment from the last knot at or below x |
| SpectrumDistribution.InterpClamp | platypus-simulate/tof_simulator.py:95-97 | below the first knot the result is the first value; at or above the last knot it is the last value |
| SpectrumDistribution.InterpAtKnot | platypus-simulate/tof_simulator.py:95-97 | with strictly increasing knots, interpolating at knot k returns value k exactly |
| SpectrumDistribution.InterpWithin | platypus-simulate/tof_simulator.py:95-97 | with non-decreasing values the result lies between the first and the last value |
| SpectrumDistribution.InterpSegment | platypus-simulate/tof_simulator.py:95-97 | with strictly increasing knots and non-decreasing values, between knots k and k+1 the result lies between values k and k+1 (repeated knots break this: `Interp(1, [0,1,1], [0,10,20])` is 20) |
| SpectrumDistribution.InterpMonotone | platypus-simulate/tof_simulator.py:95-97 | with non-decreasing values the interpolation is non-decreasing in x |
| SpectrumDistribution.Ppf | platypus-simulate/tof_simulator.py:95-97 | the approximate quantile always lies in [min(x), max(x)] |
| SpectrumDistribution.PpfClamped | platypus-simulate/tof_simulator.py:95-97 | p below the first CDF value gives min(x); p at or above the last CDF value gives max(x) |
| SpectrumDistribution.PpfAtGridPoint | platypus-simulate/tof_simulator.py:95-97 | with a strictly increasing CDF grid, the quantile of cdf_grid[k] is exactly x_grid[k] |
| SpectrumDistribution.PpfMonotone | platypus-simulate/tof_simulator.py:95-97 | the approximate quantile is non-decreasing in p |
| SpectrumDistribution.PpfWithinGridStep | platypus-simulate/tof_simulator.py:95-97 | for a well-formed distribution whose CDF grid is strictly increasing, p between cdf_grid[k] and cdf_grid[k+1] has its quantile within one grid step above x_grid[k] |
| SpectrumDistribution.PpfRoundTrip | platypus-simulate/tof_simulator.py:51-97 | the quantile of the CDF of a wavelength x in grid cell k is within one grid step (max(x)-min(x))/999 of x |
| Distributions.Fraction | platypus-simulate/tof_simulator.py:192-196 | a percentage divided by 100: the fraction times 100 is the percentage |
| Distributions.UniformWavelengths | platypus-simulate/tof_simulator.py:211-213 | the uniform generator has loc = lo-1 and support [lo-1, hi], at least one unit wide when lo <= hi |
| Distributions.Sample | platypus-simulate/tof_simulator.py:281 | a wavelength drawn from a uniform u in [0, 1) lies in the generator's support, strictly below the top for the uniform generator |
| Distributions.UniformDrawWithin | platypus-simulate/tof_simulator.py:281 | loc + scale*u lies in [loc, loc+scale) for u in [0, 1) |
| Distributions.GaussianDivergence | platypus-simulate/tof_simulator.py:241-242 | the normal divergence has sigma = div / 2.3548 |
| Distributions.TrapezoidDivergence | platypus-simulate/tof_simulator.py:244-247 | support [-alpha, alpha]; c + d = 1; the flat top is [-beta, beta]; 0 <= c <= d <= 1 when 0 <= beta <= alpha |
| Distributions.UniformJitterBounds | platypus-simulate/tof_simulator.py:304-306 | for a non-negative wavelength, a non-negative dlambda and noise in [-0.5, 0.5], the jittered wavelength lies in lambda*(1 +/- dlambda/(2*0.68)) (for a negative wavelength the band flips) |
| Distributions.UniformFactorWithin | platypus-simulate/tof_simulator.py:304-306 | the uniform jitter factor lies in 1 +/- dlambda/(2*0.68) |
| Distributions.Jitter | platypus-simulate/tof_simulator.py:300-306 | a jittered wavelength is the wavelength times its jitter factor |
| Distributions.JitterFactor | platypus-simulate/tof_simulator.py:300-306 | 1 + dlambda/2.3548*noise in Gaussian mode, 1 + dlambda/0.68*noise otherwise (bounded by UniformFactorWithin) |
| Distributions.JitterAll | platypus-simulate/tof_simulator.py:298-306 | one jittered wavelength per sampled neutron |
| Distributions.JitterAllConcat | platypus-simulate/tof_simulator.py:298-306 | jittering two batches together is jittering each batch |
| Distributions.BinCentres | platypus-simulate/tof_simulator.py:201 | one centre per bin, strictly inside its bin whenever the bin's edges are ordered |
| Binning.BinCount | platypus-simulate/tof_simulator.py:311-312 | a bin never counts more values than were given |
| Binning.Histogram | platypus-simulate/tof_simulator.py:311-312 | one count per wavelength bin |
| Binning.AddCounts | platypus-simulate/tof_simulator.py:314 | `tally += hist` on values: one sum per bin |
| Binning.HistogramAppend | platypus-simulate/tof_simulator.py:311-314 | histogramming one more value adds exactly that value's one-bin histogram |
| Binning.BinCountConcat | platypus-simulate/tof_simulator.py:311-312 | a bin's count for two batches together is the sum of its two counts |
| Binning.HistogramConcat | platypus-simulate/tof_simulator.py:311-312 | the histogram of two batches together is the sum of their histograms |
| Binning.TallyConcat | platypus-simulate/tof_simulator.py:311-318 | adding two batches' histograms one after the other adds the histogram of both together |
| Binning.IndicatorPrefixSum | platypus-simulate/tof_simulator.py:311-312 | a value hits the first n bins once if it lies in [e_0, e_n), otherwise not at all |
| Binning.IndicatorSum | platypus-simulate/tof_simulator.py:311-312 | a value is counted once if it lies in [e_0, e_N] and dropped otherwise |
| Binning.HistogramTotal | platypus-simulate/tof_simulator.py:311-314 | a batch's histogram total is the number of its values in [e_0, e_N], at most the batch size |
| Binning.BinCountSelect | platypus-simulate/tof_simulator.py:316-317 | a masked subset puts no more values into a bin than the full batch |
| Binning.HistogramSelectBelow | platypus-simulate/tof_simulator.py:316-318 | each accepted-neutron bin count is at most the all-neutron count |
| Binning.Select | platypus-simulate/tof_simulator.py:316 | `jittered_wavelengths[accepted]`: the values whose mask entry is true, in order, at most as many as given |
| Binning.SelectConcat | platypus-simulate/tof_simulator.py:316 | masking two batches together is masking each batch |
| Binning.Digitize | platypus-simulate/tof_simulator.py:328 | the `numpy.digitize` index is at most the number of edges |
| Binning.DigitizeGap | platypus-simulate/tof_simulator.py:328 | the digitize index k is the number of edges at or below the value |
| Binning.DigitizeBin | platypus-simulate/tof_simulator.py:328 | digitize gives j+1 exactly when e_j <= v < e_{j+1} |
| Binning.PickDigitized | platypus-simulate/tof_simulator.py:328-331 | `q[bin_loc == j+1]` is the q values, in sample order, whose wavelength lies in [e_j, e_{j+1}) |
| Binning.Pick | platypus-simulate/tof_simulator.py:331 | `q[bin_loc == i]`: the q values with bin index i, in sample order, at most as many as given |
| Binning.InHistogramBin | platypus-simulate/tof_simulator.py:311-317 | `numpy.histogram`'s bin i is [e_i, e_{i+1}), the last bin [e_{N-1}, e_N] closed (each in-range value is in exactly one bin by IndicatorSum) |
| Binning.InKernelBin | platypus-simulate/tof_simulator.py:328-331 | kernel bin j is the half-open [e_j, e_{j+1}) that digitize index j+1 selects (by DigitizeBin), the last edge in none (LastEdgeOnlyInHistogram) |
| Binning.DigitizeAll | platypus-simulate/tof_simulator.py:328 | `np.digitize(jittered_wavelengths, wavelength_bins)` over the whole batch: one index per value, each at most N+1 |
| Binning.KernelBinValues | platypus-simulate/tof_simulator.py:329-338 | the reference definition of what kernel bin j gains from a batch: the q values whose jittered wavelength lies in [e_j, e_{j+1}), in sample order, at most the batch size (equal to the loop's `q[bin_loc == j+1]` by PickDigitized) |
| Binning.KernelBinValuesConcat | platypus-simulate/tof_simulator.py:328-338 | a kernel bin's values for two batches together are the first batch's followed by the second's |
| Binning.LastEdgeOnlyInHistogram | platypus-simulate/tof_simulator.py:311-328 | a value equal to the last edge is in the histogram's last bin and in no kernel bin |
| Binning.KernelMatchesHistogram | platypus-simulate/tof_simulator.py:311-331 | kernel bin j gains the histogram count of bin j; the last bin gains that count less the values equal to the last edge |
| TofSimulator.Accepted | platypus-simulate/tof_simulator.py:293-294 | one acceptance flag per neutron |
| TofSimulator.AcceptedConcat | platypus-simulate/tof_simulator.py:293-294 | accepting two batches together is accepting each batch |
| TofSimulator.BinValues | platypus-simulate/tof_simulator.py:332-333 | `_res_kernel.get(i - 1, [])`: the bin's list, or empty when the bin has no entry yet |
| TofSimulator.CapReached | platypus-simulate/tof_simulator.py:322-325 | the skip test: the kernel is non-empty and every bin holds more than 500000 values |
| TofSimulator.KernelUpdate | platypus-simulate/tof_simulator.py:329-338 | the updated kernel has exactly the keys 0 .. N-1 |
| TofSimulator.UpdatePrefixAt | platypus-simulate/tof_simulator.py:329-338 | after m iterations of the kernel loop, bins below m hold their old list plus their batch values, and every other bin is as before |
| TofSimulator.UpdatePrefixComplete | platypus-simulate/tof_simulator.py:329-338 | the loop over all N bins of an untouched or complete kernel yields `KernelUpdate` |
| TofSimulator.KernelUpdateAppends | platypus-simulate/tof_simulator.py:328-338 | each bin's old list is a prefix of its new one, and the bin gains the histogram count of its bin, less the last-edge values for the last bin |
| TofSimulator.KernelUpdateBin | platypus-simulate/tof_simulator.py:329-338 | bin j after an update is its old list followed by the batch's values for bin j |
| TofSimulator.KernelUpdateConcatBin | platypus-simulate/tof_simulator.py:329-338 | one bin after two updates in a row equals that bin after one update with both batches |
| TofSimulator.KernelUpdateConcat | platypus-simulate/tof_simulator.py:329-338 | two kernel updates in a row equal one update with the concatenated batch |
| TofSimulator.TwoBatchesAsOne | platypus-simulate/tof_simulator.py:293-338 | two batches in a row leave both tallies, and the kernel when the cap is not reached in between, as one batch of both would |
| TofSimulator.CapNeedsEveryBin | platypus-simulate/tof_simulator.py:322-326 | a bin over 500000 values still grows while another bin is under the cap |
| TofSimulator.AddInPlace | platypus-simulate/tof_simulator.py:314 | `tally += hist`: the tally becomes the element-wise sum |
| TofSimulator.MaxBins | platypus-simulate/tof_simulator.py:353 | `max_bins` is at least every histogram's length and equal to one of them |
| TofSimulator.KernelCell | platypus-simulate/tof_simulator.py:359-360 | cell (row, col): the centre of density bin col (the midpoint of edges col and col+1) in row 0, the density in row 1, Missing past the histogram's length |
| TofSimulator.KernelHistos | platypus-simulate/tof_simulator.py:346-347 | the list built by appending one density histogram per kernel value in iteration order has one entry per bin (entry j is bin j's by KernelHistosAt) |
| TofSimulator.KernelHistosAt | platypus-simulate/tof_simulator.py:346-347 | entry j of the appended list is the density histogram of kernel bin j |
| TofSimulator.Reverse | platypus-simulate/tof_simulator.py:350 | `histos.reverse()` keeps the length (positions by ReverseAt) |
| TofSimulator.ReverseAt | platypus-simulate/tof_simulator.py:350 | after reversal position k holds entry \|s\|-1-k |
| TofSimulator.KernelRows | platypus-simulate/tof_simulator.py:346-350 | the appended list reversed: row k comes from kernel bin N-1-k, proved from KernelHistosAt and ReverseAt |
| TofSimulator.FillRow | platypus-simulate/tof_simulator.py:356-360 | row k gets the bin midpoints and the densities, is missing past the histogram's length, and no other row changes |
| TofSimulator.ReflectSimulator.constructor | platypus-simulate/tof_simulator.py:192-247 | resolutions become fractions; bin centres are set; the wavelength and angular generators follow the two flags; both tallies are N zeros; the kernel is empty |
| TofSimulator.ReflectSimulator.Run | platypus-simulate/tof_simulator.py:293-338 | each tally gains the histogram of its jittered batch, so no bin decreases and reflected <= direct stays true. The kernel is unchanged when the cap was reached; otherwise it is `KernelUpdate` of the old kernel, each bin extended by its batch values, and then has all keys 0 .. N-1 |
| TofSimulator.ReflectSimulator.AppendToKernel | platypus-simulate/tof_simulator.py:328-338 | the bin-by-bin loop produces exactly `KernelUpdate` of the old kernel |
| TofSimulator.ReflectSimulator.ResolutionKernel | platypus-simulate/tof_simulator.py:341-362 | None exactly before any kernel update. Otherwise the append loop and the reversal give `KernelRows`, and the result is a freshly allocated N x 2 x max_bins array; row k holds the midpoints and densities of bin N-1-k's histogram, padded with Missing |
| VfMaxEnt.SlabThickness | vf_maxent/vf_maxent.py:53-55 | None exactly when there are no betas; otherwise n slabs of this thickness make up the total thickness |
| VfMaxEnt.ScaledSum | vf_maxent/vf_maxent.py:60 | `np.sum(betas * t)`, the sum of beta_i * t (equal to sum(beta)*t by ScaledSumFactor) |
| VfMaxEnt.ScaledSumFactor | vf_maxent/vf_maxent.py:57-60 | the sum of beta_i * t is (sum of beta_i) * t |
| VfMaxEnt.AdsorbedAmount | vf_maxent/vf_maxent.py:57-60 | None exactly when there are no betas |
| VfMaxEnt.AdsorbedAmountIsMeanTimesThickness | vf_maxent/vf_maxent.py:57-60 | the adsorbed amount is sum(beta_i) * total_thickness / n |
| VfMaxEnt.SumWithin | vf_maxent/vf_maxent.py:57-60 | a sum of n values in [lo, hi] lies in [n*lo, n*hi] |
| VfMaxEnt.AdsorbedAmountWithin | vf_maxent/vf_maxent.py:36-60 | for a non-negative total thickness and every beta in [0.00001, 1], the adsorbed amount lies between 0.00001 and 1 times the total thickness |
| VfMaxEnt.FillColumn | vf_maxent/vf_maxent.py:78-81 | one column takes the value everywhere, and the other columns are unchanged |
| VfMaxEnt.FillSolventColumn | vf_maxent/vf_maxent.py:82 | row i of the column becomes 1 - beta_i, and the other columns are unchanged |
| VfMaxEnt.Slabs | vf_maxent/vf_maxent.py:74-85 | None exactly without betas. Otherwise a freshly allocated table of n rows of 5: the slab thickness, sld real, sld imag, roughness (4 in row 0, `rough` elsewhere) and 1 - beta_i, which lies in [0, 0.99999] when every beta is in range |

## Left out

- Reading the instrument spectrum file through `PlatypusNexus.process` (tof_simulator.py:215-222): the spectrum's wavelengths arrive as an argument.
- `simps` normalisation, the `InterpolatedUnivariateSpline`, its integral and `_pdf` (tof_simulator.py:38-46, 54-64): floating-point numerics of scipy. The inner CDF is a function argument.
- The exact quantile by `brentq`, `_CDF`, `_G` and the commented-out process pool (tof_simulator.py:66-121): root finding and concurrency. Only the interpolated quantile in use is modelled.
- The random number generator (`check_random_state`, `rvs`, `rng.uniform`, `rng.standard_normal`): every draw is an argument.
- Sampling the batch's angles (tof_simulator.py:278): `angular_dist.rvs(...) + angle` is a random scipy draw. Only the generators' parameters are modelled (`GaussianDivergence`, `TrapezoidDivergence`).
- The batch's q from angles and wavelengths (tof_simulator.py:284) and the nominal q of the bin centres (tof_simulator.py:202): they use the foreign `general.q` (a sine), so q is an argument.
- `general.slit_optimiser`, `general.div`, `calculate_wavelength_bins` and the reflectivity model: foreign code. Their results are arguments, and the bin edges are required to be strictly increasing.
- `bkg`, `footprint` and `_min_samples` of the constructor: stored but unused by the modelled operations.
- `L12` and `L2S` of the constructor: not stored; they only feed the foreign `slit_optimiser` and `general.div` (tof_simulator.py:237-239), whose results `div`, `alpha` and `beta` are arguments.
- The `float32` cast of kernel lists (tof_simulator.py:338): reals have no precision.
- The tallies are float64 arrays in the source and `nat` counts here: every value added is a whole count.
- The 31-bin density histogram inside `resolution_kernel`: a function argument that returns densities and edges.
- The `reflectivity` property (tof_simulator.py:364-379): square roots, error propagation and random synthesis.
- Gaussian mode: `Jitter` covers the Gaussian formula, but no bound is stated, because standard normal noise is unbounded.
- `VFMaxEnt.logp` (vf_maxent.py:62-72): logarithms and the foreign `G.logp`.
- The `Parameter`/`SLD` wrapping in the `VFMaxEnt` constructor and the `parameters` property (vf_maxent.py:19-51): bookkeeping inside refnx. Parameters are plain reals here, so the `[0.00001, 1]` range of the betas is a hypothesis of the lemmas, not a checked bound.
- TrapezoidDivergence: requires alpha != 0, because the source divides by alpha and a zero divergence has no trapezoid.
- NewSpectrumDist: the CDF grid is well formed only under the hypotheses of `NewSpectrumDistWellFormed`. The source relies on the spline integral being monotone, which the model cannot see.
- TofSimulator.ReflectSimulator.constructor: requires a non-empty spectrum when the uniform generator is not forced, and alpha != 0 when the Gaussian one is not: in the source, `numpy.min` of an empty spectrum raises, and the trapezoid divides by alpha, so alpha = 0 gives no trapezoid.

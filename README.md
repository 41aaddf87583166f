# dalek optimizer engine and spectrum binning, in Dafny

This project models the optimizer engine of dalek, a driver that fits
supernova-spectrum simulations by running one of several optimizers over
generations of parameter rows. Each optimizer object takes one evaluated
generation and returns the next one. The generation is a table of parameter
columns plus a `dalek.fitness` column.

The model covers:

- the shared helpers of `BaseOptimizer`:
  - splitting a collection into fitness and parameters;
  - normalising the abundance columns;
  - the inclusive bounds test.
- the Luus–Jaakola adaptive random search;
- differential evolution with greedy replacement;
- the constricted "gbest" particle swarm;
- the name-keyed optimizer registry and the two strategies whose constructors always raise;
- `w_histogram`, which bins (nu, luminosity) pairs into half-open frequency bins;
- the evenly spaced bin edges that `loglikelihood` builds from a bin count.

Each stateful optimizer is a class. Its fields mirror the Python attributes:

- `d` for Luus–Jaakola;
- `population` and `fitness` for differential evolution;
- `x`, `y`, `px`, `py` and `v` for the particle swarm.

An `initialized` flag stands for the `None` that marks the first call. Every
`__call__` is an `Advance` method whose `ensures` ties the result and the new
state to specification functions. The lemmas prove properties of those
functions: elitism, feasibility, the cooling schedule, distinct donors, greedy
replacement, the global-best guide, and bounds preservation.

Every random draw is a parameter of `Advance`, with a `requires` giving its range:

- `np.random.uniform` as a unit draw `u` in [0, 1), mapped to `low + (high - low) * u`;
- `random.shuffle` as any permutation of the other slots;
- `np.random.randint(0, dim)` as a forced dimension below `dim`;
- `np.random.random` and `np.random.sample` as unit draws.

Numpy arrays become `seq` fields that the methods reassign. The Python code
copies every array it stores (`np.array(...)`, `.copy()`), so no aliasing is lost.

Files:

- `basics.dfy`: vectors, errors, `Result`, clipping, `violates_bounds`, first argmin, `neighbourhood`, and greedy replacement.
- `parameters.dfy`: the parameter configuration, the ParameterCollection, `split_parameter_collection` and `normalize_parameter_collection`.
- `registry.dfy`: `optimizer_dict` and the constructors that raise.
- `luus_jaakola.dfy`, `differential_evolution.dfy`, `particle_swarm.dfy`: the three working optimizers.
- `histogram.dfy`: `w_histogram` and the bin-edge construction.

## Model

| member | source | states |
|---|---|---|
| Basics.ViolatesBounds | dalek/fitter/optimizers.py:118-119 | a vector violates the bounds exactly when it is not inside them, both ends inclusive |
| Basics.Clip | dalek/fitter/optimizers.py:94-96 | for ordered bounds the clipped value lies in the bounds; a value already inside is unchanged, and a value outside goes to the nearer bound |
| Basics.FirstArgMin | dalek/fitter/optimizers.py:87 | the position returned holds a least element, and every earlier element is strictly greater (first occurrence) |
| Basics.OtherIndices | dalek/fitter/optimizers.py:165-166 | the neighbourhood of `index` has n - 1 entries when `index < n`, all below n, none equal to `index`, in ascending order |
| Basics.SelectionIsGreedy | dalek/fitter/optimizers.py:128-132 | each stored fitness becomes the lower of the stored and the new value; a slot changes only on strict improvement, with vector and fitness together |
| Parameters.SplitParameterCollection | dalek/fitter/optimizers.py:44-47 | the split succeeds exactly when the fitness column and every parameter name are present; a missing fitness column is reported first as KeyError; every output entry is the input entry under the same label |
| Parameters.NormalizeParameterCollection | dalek/fitter/optimizers.py:34-42 | columns kept; non-abundance entries unchanged; each abundance entry divided by its row's abundance sum, so each row's abundances sum to 1; an error exactly when some row's abundance sum is zero |
| Parameters.AbundanceSumScaled | dalek/fitter/optimizers.py:38-40 | dividing every abundance entry of a row by a total divides the row's abundance sum by that total |
| Parameters.NormalizedRowSumsToOne | dalek/fitter/optimizers.py:38-40 | a row divided by its own non-zero abundance sum has abundance sum one |
| Registry.Lookup | dalek/fitter/optimizers.py:207-210 | the four keys map to their four strategies; any other name raises KeyError |
| Registry.RegistryIsOneToOne | dalek/fitter/optimizers.py:207-210 | no two keys name the same strategy |
| Registry.NewRandomSampling | dalek/fitter/optimizers.py:51-52 | construction always raises NotImplementedError |
| Registry.NewNoiseMeasurement | dalek/fitter/optimizers.py:65-66 | construction always raises NotImplementedError |
| LuusJaakola.InitialHalfWidth | dalek/fitter/optimizers.py:80-81 | twice the initial half-width is the bound range |
| LuusJaakola.Midpoint | dalek/fitter/optimizers.py:77-78 | the initial point is equidistant from both bounds |
| LuusJaakola.WindowInsideBounds | dalek/fitter/optimizers.py:94-97 | with ordered bounds and a non-negative half-width, the clipped window is a non-empty sub-box of the bounds |
| LuusJaakola.Uniform | dalek/fitter/optimizers.py:94-97 | a uniform sample lies between its low and high ends |
| LuusJaakola.SampleAround | dalek/fitter/optimizers.py:90-97 | the sampling loop emits the incumbent followed by one window sample per row of draws |
| LuusJaakola.Step | dalek/fitter/optimizers.py:83-101 | a successful call emits, under the parameter names, one row more than there are draws: the incumbent, then the samples of its window |
| LuusJaakola.Elitism | dalek/fitter/optimizers.py:85-92 | a call succeeds exactly when the split succeeds and there is a row; the first emitted row is the parameter vector of the first row of least fitness |
| LuusJaakola.Feasibility | dalek/fitter/optimizers.py:91-97 | every sampled row lies in the clipped window and in the bounds; if the incumbent is in bounds, so is every row |
| LuusJaakola.ExampleKeepsBestRow | dalek/fitter/optimizers.py:85-97 | fitness 5, 1, 9 with three draws gives four rows, starting with the second row's parameters |
| LuusJaakola.CoolingStep | dalek/fitter/optimizers.py:98 | one shrink moves the half-width from the schedule value after k calls to the value after k + 1 |
| LuusJaakola.LuusJaakolaOptimizer.Advance | dalek/fitter/optimizers.py:83-101 | the result is `Step` of the old half-width; on success `d` shrinks by 0.95 whatever the fitness; on error nothing changes; the cooling invariant `d = (ub - lb)/2 * 0.95^calls` is kept |
| LuusJaakola.LuusJaakolaOptimizer.Cool | dalek/fitter/optimizers.py:98 | `d` is multiplied by 0.95 entry by entry and the cooling invariant is kept |
| LuusJaakola.LuusJaakolaOptimizer.HalfWidthShrinks | dalek/fitter/optimizers.py:98 | with ordered bounds the half-width stays non-negative and never grows |
| DifferentialEvolution.DonorsDistinct | dalek/fitter/optimizers.py:135-137 | any shuffle of the other slots has n - 1 ≥ 3 entries, all valid slots, none equal to `index`, pairwise distinct |
| DifferentialEvolution.TrialCoordinates | dalek/fitter/optimizers.py:139-145 | the forced coordinate and every coordinate drawn below 0.9 take the mutant value `a + 0.5 (b - c)`; every other coordinate keeps the parent's |
| DifferentialEvolution.CandidateInBounds | dalek/fitter/optimizers.py:146-147 | an emitted row is an in-bounds trial or, when the trial leaves the bounds, the parent; an in-bounds parent gives an in-bounds row |
| DifferentialEvolution.GenerationInBounds | dalek/fitter/optimizers.py:133-147 | a population inside the bounds emits only rows inside the bounds |
| DifferentialEvolution.Crossover | dalek/fitter/optimizers.py:140-145 | the coordinate loop builds exactly the crossover trial |
| DifferentialEvolution.DEOptimizer.Select | dalek/fitter/optimizers.py:124-132 | the first call stores the incoming population; later calls apply greedy replacement slot by slot |
| DifferentialEvolution.DEOptimizer.Candidates | dalek/fitter/optimizers.py:133-147 | the candidate loop builds the next generation from the selected population, donors and draws |
| DifferentialEvolution.DEOptimizer.Advance | dalek/fitter/optimizers.py:121-150 | a failed split raises with no state change; otherwise selection is applied, then with no parameters `randint` raises, else the next generation is emitted |
| DifferentialEvolution.NewDEOptimizer | dalek/fitter/optimizers.py:104-116 | construction raises ValueError exactly when the population size is below 4; otherwise there is no population yet |
| ParticleSwarm.Constriction | dalek/fitter/optimizers.py:160 | chi times `c1 + c2 - 2 + sqrt(...)` is 2 |
| ParticleSwarm.ConstrictionRange | dalek/fitter/optimizers.py:158-160 | with c1 = c2 = 2.05, chi lies strictly between 0.72 and 0.73 |
| ParticleSwarm.Positions | dalek/fitter/optimizers.py:172 | the parameter part of each row is every column but the last |
| ParticleSwarm.Fitnesses | dalek/fitter/optimizers.py:175-177 | the fitness of each row is its last column |
| ParticleSwarm.Guide | dalek/fitter/optimizers.py:185-190 | the guide is another particle whose best is at most every other particle's best, and no earlier neighbour ties with it |
| ParticleSwarm.GlobalBestGuidesOthers | dalek/fitter/optimizers.py:185-190 | every particle except the first global best is guided by that global best |
| ParticleSwarm.EmittedInBounds | dalek/fitter/optimizers.py:194-199 | an emitted row is the moved particle when that is in bounds, else its personal best; in-bounds personal bests give in-bounds rows |
| ParticleSwarm.FirstMoveTowardsGuide | dalek/fitter/optimizers.py:173-193 | on the first call (zero velocity, position equal to personal best) each velocity coordinate is `chi c2 r2 (gx - x)` and has the sign of the guide's offset |
| ParticleSwarm.StagnantVelocityDecays | dalek/fitter/optimizers.py:191-193 | a particle at its own and its guide's best keeps only its velocity scaled by chi |
| ParticleSwarm.PSOOptimizer.UpdateBests | dalek/fitter/optimizers.py:173-183 | the first call sets x = px = the positions, y = py = the fitness and v = 0; later calls update personal bests by greedy replacement only |
| ParticleSwarm.PSOOptimizer.GuideRows | dalek/fitter/optimizers.py:184-190 | `gx` holds each particle's guide's personal best |
| ParticleSwarm.PSOOptimizer.EmitRows | dalek/fitter/optimizers.py:194-199 | the emission loop builds exactly the emitted rows |
| ParticleSwarm.PSOOptimizer.Advance | dalek/fitter/optimizers.py:171-204 | bests are updated first; a single particle then raises ValueError; otherwise v is the constricted velocity towards the personal and guide bests, x advances by v unconditionally, and the emitted rows are x or the personal best |
| Histogram.Sort | dalek/fitter/fitness_function.py:36 | the sorted edges are ascending and a rearrangement of the given frequencies |
| Histogram.SortedUnique | dalek/fitter/fitness_function.py:36 | two ascending sequences with the same elements are equal |
| Histogram.EdgeOrderIrrelevant | dalek/fitter/fitness_function.py:36 | reordering the frequencies does not change the bins |
| Histogram.Zip | dalek/fitter/fitness_function.py:40 | pairs are formed position by position up to the shorter input |
| Histogram.BinPairsMembers | dalek/fitter/fitness_function.py:41 | a pair is in the bin [lo, hi) exactly when it is an input pair with lo ≤ nu < hi |
| Histogram.FillBin | dalek/fitter/fitness_function.py:40-43 | the inner loop appends, in input order, the nus and luminosities of the pairs in one bin |
| Histogram.WHistogram | dalek/fitter/fitness_function.py:24-44 | one nu list and one luminosity list per bin, `len(frequencies) - 1` bins; bin k holds exactly the nus and the luminosities of the bin's pairs, in input order |
| Histogram.BinsStayPaired | dalek/fitter/fitness_function.py:40-43 | the m-th nu and the m-th luminosity of a bin come from the same input position |
| Histogram.BinMembership | dalek/fitter/fitness_function.py:36-43 | a pair is in bin k exactly when it is an input pair whose nu lies in [sorted_f[k], sorted_f[k+1]) |
| Histogram.AtMostOneBin | dalek/fitter/fitness_function.py:39-43 | with sorted edges no pair is in two bins |
| Histogram.OutsideEdgesDropped | dalek/fitter/fitness_function.py:39-43 | values below the smallest edge or at or above the largest edge are in no bin |
| Histogram.HitsAtMostOne | dalek/fitter/fitness_function.py:39-43 | with sorted edges a value lies in at most one half-open bin |
| Histogram.TotalItemsBounded | dalek/fitter/fitness_function.py:39-43 | with sorted edges the bins hold at most as many items as there are pairs |
| Histogram.HistogramTotalBounded | dalek/fitter/fitness_function.py:39-43 | the total number of binned items is at most `min(len(nus), len(luminosities))` |
| Histogram.Min | dalek/fitter/fitness_function.py:62 | the minimum is an element and at most every element |
| Histogram.Max | dalek/fitter/fitness_function.py:63 | the maximum is an element and at least every element |
| Histogram.EvenEdges | dalek/fitter/fitness_function.py:64 | `bins + 1` ascending edges from `a` to exactly `b`, consecutive edges exactly `(b - a) / bins` apart |
| Histogram.BinEdges | dalek/fitter/fitness_function.py:61-65 | explicit edges pass through unchanged; for a count, an empty `nus1` raises ValueError, zero bins raise ZeroDivisionError, a negative count gives no edges, otherwise `bins + 1` ascending edges from `min(nus1)` to `max(nus1)`, evenly spaced by `(max - min) / bins` |
| Histogram.MaxInNoBin | dalek/fitter/fitness_function.py:61-66 | with a positive bin count, a point at `max(nus1)` falls in no bin of its own histogram |

## Left out

- Floating point is modelled as exact reals: rounding, NaN and infinity are not modelled. In reals the last even edge equals `max(nus1)` exactly.
- Parameters.NormalizeParameterCollection: the source writes the normalised abundance columns into the caller's own collection and returns that same object. The model returns a new collection, so the change to the caller's table is not captured.
- Parameters.NormalizeParameterCollection: a zero abundance sum is reported as ZeroDivisionError, where pandas silently produces NaN or infinity.
- Histogram.BinEdges: models `min(nus1)` and `max(nus1)` as Python floats, so zero bins raise ZeroDivisionError. With the numpy arrays that `w_histogram` documents, `(b - a) / float(0)` is a numpy scalar division: it gives inf or NaN with a warning and raises nothing, so the edges are `[nan]` and the histogram has no bins.
- The random number generators are not modelled. Their outputs are caller-supplied parameters, with range preconditions, and their distributions are not modelled.
- Pandas label semantics are not modelled. The ParameterCollection is rows of reals with distinct column labels. `.ix[fitness.argmin()]` and `fitness[index]` are read positionally, which matches the default integer index.
- DifferentialEvolution.DEOptimizer.Advance requires the incoming collection to have exactly `population_size` rows. The source sizes the population from the collection but draws donors from `range(self.n)`, and fails with IndexError or misbehaves otherwise.
- ParticleSwarm.PSOOptimizer.Advance requires exactly `number_of_samples` rows of `len(parameter_names) + 1` columns each, every call. The source fails inside numpy or pandas otherwise.
- ParticleSwarm.PSOOptimizer.constructor takes the value of the square root in `chi` as an argument, characterised by its square. `sqrt` itself is not modelled.
- RandomSampling and NoiseMeasurement `__call__` are not modelled. Their constructors always raise, so those methods are unreachable.
- `loglikelihood` beyond its bin-edge construction is not modelled: the sums, variances, square roots and the final boolean-indexed sum are floating-point numerics. `SimpleRMSFitnessFunction` and `LogLikelihoodFitnessFunction` are not modelled either.
- dalek/analysis/base.py, dalek/dalek_helper.py and dalek_likelihood.cpp are not part of this model. They are CSV, HDF5 and YAML I/O, plotting, a call into the external simulation, and a C API bridge.
- The numpy error message texts ("low >= high", "min() arg is an empty sequence", "attempt to get argmin of an empty sequence") are carried as strings for readability. Only the exception kind is meant to match.

/** `DEOptimizer`: differential evolution with greedy per-slot replacement
    and rejection of out-of-bounds trials. The population size, at least 4,
    is fixed at construction; crossover probability 0.9 and scale factor 0.5
    are constants. */
module DifferentialEvolution {
  import opened Basics
  import opened Parameters

  /** `self.cr`. */
  const CrossoverProbability: real := 0.9

  /** `self.f`. */
  const ScaleFactor: real := 0.5

  /** Smallest population that leaves three donors besides each slot. */
  const MinPopulation: nat := 4

  /** `random.shuffle` of `[i for i in range(n) if i != index]`: any
      rearrangement of the slots other than `index`. */
  ghost predicate IsShuffle(perm: seq<nat>, n: nat, index: nat) {
    multiset(perm) == multiset(OtherIndices(n, index))
  }

  /** A strictly increasing sequence holds every value at most once. */
  lemma {:induction false} IncreasingHoldsOnce(s: seq<nat>, x: nat)
    requires forall k, l :: 0 <= k < l < |s| ==> s[k] < s[l]
    ensures multiset(s)[x] <= 1
    decreases |s|
  {
    if |s| > 0 {
      var init := s[..|s| - 1];
      assert s == init + [s[|s| - 1]];
      IncreasingHoldsOnce(init, x);
      if x == s[|s| - 1] {
        assert x !in init;
      }
    }
  }

  /** A value at two positions of a sequence is counted twice. */
  lemma RepeatCountsTwice(p: seq<nat>, k: nat, l: nat)
    requires k < l < |p| && p[k] == p[l]
    ensures multiset(p)[p[k]] >= 2
  {
    assert p == p[..l] + p[l..];
    assert p[k] in p[..l];
    assert p[l..][0] == p[l];
    assert p[l] in p[l..];
  }

  /** The donors of slot `index` (the first three entries of its shuffle)
      exist, are valid slots, differ from `index` and from each other. */
  lemma DonorsDistinct(perm: seq<nat>, n: nat, index: nat)
    requires MinPopulation <= n && index < n && IsShuffle(perm, n, index)
    ensures |perm| == n - 1 && 3 <= |perm|
    ensures forall k :: 0 <= k < |perm| ==> perm[k] < n && perm[k] != index
    ensures forall k, l :: 0 <= k < l < |perm| ==> perm[k] != perm[l]
  {
    var others := OtherIndices(n, index);
    assert |perm| == |multiset(perm)| == |multiset(others)| == |others|;
    forall k | 0 <= k < |perm|
      ensures perm[k] < n && perm[k] != index
    {
      assert perm[k] in multiset(perm);
      assert perm[k] in others;
    }
    forall k, l | 0 <= k < l < |perm|
      ensures perm[k] != perm[l]
    {
      if perm[k] == perm[l] {
        RepeatCountsTwice(perm, k, l);
        IncreasingHoldsOnce(others, perm[k]);
        assert false;
      }
    }
  }

  /** Donor slots of every slot: at least three, all inside the population. */
  predicate HasDonors(perms: seq<seq<nat>>, n: nat) {
    |perms| == n && forall i :: 0 <= i < n ==> 3 <= |perms[i]| && forall k :: 0 <= k < |perms[i]| ==> perms[i][k] < n
  }

  /** The mutant `a + f * (b - c)` of three donor vectors. */
  function Mutant(a: Vector, b: Vector, c: Vector): (m: Vector)
    requires |a| == |b| == |c|
    ensures |m| == |a|
  {
    seq(|a|, j requires 0 <= j < |a| => a[j] + ScaleFactor * (b[j] - c[j]))
  }

  /** Binomial crossover: coordinate `j` comes from the mutant when its draw
      is below the crossover probability or `j` is the forced dimension, and
      from the parent otherwise. */
  function Trial(parent: Vector, mutant: Vector, forced: nat, draws: Vector): (t: Vector)
    requires |parent| == |mutant| == |draws|
    ensures |t| == |parent|
  {
    seq(|parent|, j requires 0 <= j < |parent| =>
      if draws[j] < CrossoverProbability || j == forced then mutant[j] else parent[j])
  }

  /** The row emitted for slot `index`: its trial, or the parent itself when
      the trial leaves the bounds. */
  function Candidate(pop: Matrix, index: nat, perm: seq<nat>, forced: nat, draws: Vector, lb: Vector, ub: Vector): (row: Vector)
    requires IsMatrix(pop, |pop|, |lb|) && |lb| == |ub| == |draws| && index < |pop|
    requires 3 <= |perm| && forall k :: 0 <= k < |perm| ==> perm[k] < |pop|
    ensures |row| == |lb|
  {
    var trial := Trial(pop[index], Mutant(pop[perm[0]], pop[perm[1]], pop[perm[2]]), forced, draws);
    if ViolatesBounds(trial, lb, ub) then pop[index] else trial
  }

  /** All rows emitted by one call, slot by slot. */
  function NextGeneration(pop: Matrix, perms: seq<seq<nat>>, forced: seq<nat>, draws: Matrix, lb: Vector, ub: Vector): (rows: Matrix)
    requires IsMatrix(pop, |pop|, |lb|) && |lb| == |ub|
    requires HasDonors(perms, |pop|) && |forced| == |pop| && IsMatrix(draws, |pop|, |lb|)
    ensures IsMatrix(rows, |pop|, |lb|)
  {
    seq(|pop|, i requires 0 <= i < |pop| => Candidate(pop, i, perms[i], forced[i], draws[i], lb, ub))
  }

  /** Crossover: the forced coordinate and every coordinate drawn below the
      crossover probability come from the mutant; every other coordinate is
      the parent's. */
  lemma TrialCoordinates(parent: Vector, mutant: Vector, forced: nat, draws: Vector)
    requires |parent| == |mutant| == |draws|
    ensures forced < |parent| ==> Trial(parent, mutant, forced, draws)[forced] == mutant[forced]
    ensures forall j :: 0 <= j < |parent| && draws[j] < CrossoverProbability ==>
              Trial(parent, mutant, forced, draws)[j] == mutant[j]
    ensures forall j :: 0 <= j < |parent| && j != forced && CrossoverProbability <= draws[j] ==>
              Trial(parent, mutant, forced, draws)[j] == parent[j]
  {
  }

  /** Rejection: an emitted row is either an in-bounds trial or the parent;
      so when the parent is within the bounds, so is the emitted row. */
  lemma CandidateInBounds(pop: Matrix, index: nat, perm: seq<nat>, forced: nat, draws: Vector, lb: Vector, ub: Vector)
    requires IsMatrix(pop, |pop|, |lb|) && |lb| == |ub| == |draws| && index < |pop|
    requires 3 <= |perm| && forall k :: 0 <= k < |perm| ==> perm[k] < |pop|
    ensures var trial := Trial(pop[index], Mutant(pop[perm[0]], pop[perm[1]], pop[perm[2]]), forced, draws);
            var row := Candidate(pop, index, perm, forced, draws, lb, ub);
            (row == trial && InBounds(trial, lb, ub)) || (row == pop[index] && !InBounds(trial, lb, ub))
    ensures InBounds(pop[index], lb, ub) ==> InBounds(Candidate(pop, index, perm, forced, draws, lb, ub), lb, ub)
  {
  }

  /** Bounds invariant: a population within the bounds emits only rows within
      the bounds. */
  lemma GenerationInBounds(pop: Matrix, perms: seq<seq<nat>>, forced: seq<nat>, draws: Matrix, lb: Vector, ub: Vector)
    requires IsMatrix(pop, |pop|, |lb|) && |lb| == |ub|
    requires HasDonors(perms, |pop|) && |forced| == |pop| && IsMatrix(draws, |pop|, |lb|)
    requires forall i :: 0 <= i < |pop| ==> InBounds(pop[i], lb, ub)
    ensures var rows := NextGeneration(pop, perms, forced, draws, lb, ub);
            forall i :: 0 <= i < |rows| ==> InBounds(rows[i], lb, ub)
  {
    forall i | 0 <= i < |pop|
      ensures InBounds(NextGeneration(pop, perms, forced, draws, lb, ub)[i], lb, ub)
    {
      CandidateInBounds(pop, i, perms[i], forced[i], draws[i], lb, ub);
    }
  }

  /** The inner loop of `__call__` over the coordinates of one slot: each
      coordinate takes `a[j] + f * (b[j] - c[j])` or stays the parent's. */
  method Crossover(vector: Vector, a: Vector, b: Vector, c: Vector, forced: nat, draws: Vector) returns (trial: Vector)
    requires |vector| == |a| == |b| == |c| == |draws|
    ensures trial == Trial(vector, Mutant(a, b, c), forced, draws)
  {
    trial := vector;
    var j := 0;
    while j < |vector|
      invariant 0 <= j <= |vector| && |trial| == |vector|
      invariant forall m :: 0 <= m < j ==> trial[m] == Trial(vector, Mutant(a, b, c), forced, draws)[m]
      invariant forall m :: j <= m < |vector| ==> trial[m] == vector[m]
    {
      var ri := draws[j];
      if ri < CrossoverProbability || j == forced {
        trial := trial[j := a[j] + ScaleFactor * (b[j] - c[j])];
      }
      j := j + 1;
    }
  }

  class DEOptimizer {
    const config: ParameterConfig
    /** `self.dim`, the number of parameters. */
    const dim: nat
    /** `self.n`, the population size. */
    const n: nat
    /** False while `self.population` is None. */
    var initialized: bool
    var population: Matrix
    var fitness: Vector

    ghost predicate Valid()
      reads this
    {
      && config.WellFormed()
      && dim == config.Dim()
      && MinPopulation <= n
      && (initialized ==> IsMatrix(population, n, dim) && |fitness| == n)
    }

    constructor (parameterConfig: ParameterConfig, populationSize: nat)
      requires parameterConfig.WellFormed() && MinPopulation <= populationSize
      ensures Valid() && !initialized
      ensures config == parameterConfig && n == populationSize
    {
      initialized := false;
      population, fitness := [], [];
      config := parameterConfig;
      dim := parameterConfig.Dim();
      n := populationSize;
    }

    /** The selection step of `__call__`: the first call stores the incoming
        population; later calls replace slot by slot, greedily. */
    method Select(newFitness: Vector, newPopulation: Matrix)
      requires Valid() && |newFitness| == n && IsMatrix(newPopulation, n, dim)
      modifies this
      ensures Valid() && initialized
      ensures population == if old(initialized) then SelectedPopulation(old(population), old(fitness), newPopulation, newFitness) else newPopulation
      ensures fitness == if old(initialized) then SelectedFitness(old(fitness), newFitness) else newFitness
    {
      if !initialized {
        population := newPopulation;
        fitness := newFitness;
        initialized := true;
        return;
      }
      var index := 0;
      while index < |population|
        invariant 0 <= index <= n && initialized
        invariant IsMatrix(population, n, dim) && |fitness| == n
        invariant forall k :: 0 <= k < index ==>
                    population[k] == (if newFitness[k] < old(fitness)[k] then newPopulation[k] else old(population)[k]) &&
                    fitness[k] == (if newFitness[k] < old(fitness)[k] then newFitness[k] else old(fitness)[k])
        invariant forall k :: index <= k < n ==> population[k] == old(population)[k] && fitness[k] == old(fitness)[k]
      {
        if newFitness[index] < fitness[index] {
          population := population[index := newPopulation[index]];
          fitness := fitness[index := newFitness[index]];
        }
        index := index + 1;
      }
    }

    /** The candidate-building loop of `__call__`, given the shuffles, forced
        dimensions and crossover draws of every slot. */
    method Candidates(perms: seq<seq<nat>>, forced: seq<nat>, draws: Matrix) returns (candidates: Matrix)
      requires Valid() && initialized
      requires |perms| == n && forall i :: 0 <= i < n ==> IsShuffle(perms[i], n, i)
      requires |forced| == n && IsUnitMatrix(draws, n, dim)
      ensures HasDonors(perms, n)
      ensures candidates == NextGeneration(population, perms, forced, draws, config.lbounds, config.ubounds)
    {
      forall i | 0 <= i < n
        ensures 3 <= |perms[i]| && forall k :: 0 <= k < |perms[i]| ==> perms[i][k] < n
      {
        DonorsDistinct(perms[i], n, i);
      }
      ghost var next := NextGeneration(population, perms, forced, draws, config.lbounds, config.ubounds);
      candidates := population;
      var index := 0;
      while index < |population|
        invariant 0 <= index <= n && |candidates| == n
        invariant forall k :: 0 <= k < index ==> candidates[k] == next[k]
        invariant forall k :: index <= k < n ==> candidates[k] == population[k]
      {
        var vector := population[index];
        var i1, i2, i3 := perms[index][0], perms[index][1], perms[index][2];
        var a, b, c := population[i1], population[i2], population[i3];
        var trial := Crossover(vector, a, b, c, forced[index], draws[index]);
        candidates := candidates[index := trial];
        if ViolatesBounds(candidates[index], config.lbounds, config.ubounds) {
          candidates := candidates[index := vector];
        }
        index := index + 1;
      }
    }

    /** `__call__`. A failed split raises before any state changes; with no
        parameters at all, `randint(0, 0)` raises after the selection step. */
    method Advance(pc: Collection, perms: seq<seq<nat>>, forced: seq<nat>, draws: Matrix) returns (r: Result<Collection>)
      requires Valid() && pc.WellFormed() && |pc.rows| == n
      requires |perms| == n && forall i :: 0 <= i < n ==> IsShuffle(perms[i], n, i)
      requires |forced| == n && forall i :: 0 <= i < n ==> dim == 0 || forced[i] < dim
      requires IsUnitMatrix(draws, n, dim)
      modifies this
      ensures Valid()
      ensures SplitParameterCollection(pc, config.names).Err? ==>
                r == Err(SplitParameterCollection(pc, config.names).error) &&
                initialized == old(initialized) && population == old(population) && fitness == old(fitness)
      ensures SplitParameterCollection(pc, config.names).Ok? ==>
                var (newFitness, newPopulation) := SplitParameterCollection(pc, config.names).value;
                && initialized
                && population == (if old(initialized) then SelectedPopulation(old(population), old(fitness), newPopulation, newFitness) else newPopulation)
                && fitness == (if old(initialized) then SelectedFitness(old(fitness), newFitness) else newFitness)
                && (dim == 0 ==> r == Err(ValueError("low >= high")))
                && (dim != 0 ==> HasDonors(perms, n) &&
                                 r == Ok(Collection(config.names, NextGeneration(population, perms, forced, draws, config.lbounds, config.ubounds))))
    {
      var split := SplitParameterCollection(pc, config.names);
      if split.Err? {
        return Err(split.error);
      }
      var (newFitness, newPopulation) := split.value;
      Select(newFitness, newPopulation);
      if dim == 0 {
        return Err(ValueError("low >= high"));
      }
      var candidates := Candidates(perms, forced, draws);
      r := Ok(Collection(config.names, candidates));
    }
  }

  /** Construction: a population size below 4 raises ValueError; otherwise
      the optimizer starts with no population. */
  method NewDEOptimizer(parameterConfig: ParameterConfig, populationSize: int) returns (r: Result<DEOptimizer>)
    requires parameterConfig.WellFormed()
    ensures r.Err? <==> populationSize < MinPopulation
    ensures r.Err? ==> r.error == ValueError("Need at least 4 samples for differential evolution")
    ensures r.Ok? ==> fresh(r.value) && r.value.Valid() && !r.value.initialized
    ensures r.Ok? ==> r.value.n == populationSize && r.value.config == parameterConfig
  {
    if populationSize < MinPopulation {
      return Err(ValueError("Need at least 4 samples for differential evolution"));
    }
    var optimizer := new DEOptimizer(parameterConfig, populationSize);
    r := Ok(optimizer);
  }
}

/** `optimizer_dict`, the name-keyed registry the driver uses to pick a
    strategy, and the two strategies whose constructors always raise. */
module Registry {
  import opened Basics
  import opened Parameters

  datatype OptimizerKind = RandomSampling | LuusJaakola | DifferentialEvolution | ParticleSwarm

  /** `optimizer_dict`. */
  const OptimizerDict: map<string, OptimizerKind> :=
    map["random_sampling" := RandomSampling,
        "luus_jaakola" := LuusJaakola,
        "devolution" := DifferentialEvolution,
        "pso" := ParticleSwarm]

  /** `optimizer_dict[name]`: each of the four keys names its own strategy,
      any other name raises KeyError. */
  function Lookup(name: string): (r: Result<OptimizerKind>)
    ensures r.Ok? <==> name in {"random_sampling", "luus_jaakola", "devolution", "pso"}
    ensures r.Err? ==> r.error == KeyError(name)
    ensures name == "random_sampling" ==> r == Ok(RandomSampling)
    ensures name == "luus_jaakola" ==> r == Ok(LuusJaakola)
    ensures name == "devolution" ==> r == Ok(DifferentialEvolution)
    ensures name == "pso" ==> r == Ok(ParticleSwarm)
  {
    if name in OptimizerDict then Ok(OptimizerDict[name]) else Err(KeyError(name))
  }

  /** Every strategy is registered under exactly one key. */
  lemma RegistryIsOneToOne(a: string, b: string)
    requires Lookup(a).Ok? && Lookup(b).Ok? && Lookup(a) == Lookup(b)
    ensures a == b
  {
  }

  /** `RandomSampling.__init__` raises NotImplementedError before it stores
      anything, so no RandomSampling object ever exists. */
  function NewRandomSampling(config: ParameterConfig, numberOfSamples: int): (r: Outcome)
    ensures r.Fail? && r.error == NotImplementedError
  {
    Fail(NotImplementedError)
  }

  /** `NoiseMeasurement.__init__` raises NotImplementedError the same way. */
  function NewNoiseMeasurement(numberOfSamples: int): (r: Outcome)
    ensures r.Fail? && r.error == NotImplementedError
  {
    Fail(NotImplementedError)
  }
}

/** `LuusJaakolaOptimizer`: adaptive random search. Every call keeps the
    best row of the evaluated generation, samples new rows uniformly in a
    window of half-width `d` around it (clipped to the bounds), and shrinks
    `d` by the factor 0.95. */
module LuusJaakola {
  import opened Basics
  import opened Parameters

  /** Factor applied to the half-width on every call. */
  const Shrink: real := 0.95

  /** Number of iterations of `for _ in range(n)`. */
  function Samples(n: int): nat {
    if n < 0 then 0 else n
  }

  /** Initial half-width `(ubounds - lbounds) * 0.5`. */
  function InitialHalfWidth(config: ParameterConfig): (d: Vector)
    requires config.WellFormed()
    ensures |d| == config.Dim()
    ensures forall j :: 0 <= j < |d| ==> d[j] + d[j] == config.ubounds[j] - config.lbounds[j]
  {
    seq(config.Dim(), j requires 0 <= j < config.Dim() => (config.ubounds[j] - config.lbounds[j]) * 0.5)
  }

  /** Initial point `(lbounds + ubounds) * 0.5`. */
  function Midpoint(config: ParameterConfig): (x: Vector)
    requires config.WellFormed()
    ensures |x| == config.Dim()
    ensures forall j :: 0 <= j < |x| ==> x[j] - config.lbounds[j] == config.ubounds[j] - x[j]
  {
    seq(config.Dim(), j requires 0 <= j < config.Dim() => (config.lbounds[j] + config.ubounds[j]) * 0.5)
  }

  /** Lower end of the sampling window, `clip(best - d, lbounds, ubounds)`. */
  function WindowLow(best: Vector, d: Vector, lb: Vector, ub: Vector): (w: Vector)
    requires |best| == |d| == |lb| == |ub|
    ensures |w| == |best|
  {
    seq(|best|, j requires 0 <= j < |best| => Clip(best[j] - d[j], lb[j], ub[j]))
  }

  /** Upper end of the sampling window, `clip(best + d, lbounds, ubounds)`. */
  function WindowHigh(best: Vector, d: Vector, lb: Vector, ub: Vector): (w: Vector)
    requires |best| == |d| == |lb| == |ub|
    ensures |w| == |best|
  {
    seq(|best|, j requires 0 <= j < |best| => Clip(best[j] + d[j], lb[j], ub[j]))
  }

  /** With ordered bounds and a non-negative half-width, the window is a
      non-empty sub-box of the bounds. */
  lemma WindowInsideBounds(best: Vector, d: Vector, lb: Vector, ub: Vector)
    requires |best| == |d| == |lb| == |ub|
    requires forall j :: 0 <= j < |lb| ==> lb[j] <= ub[j] && 0.0 <= d[j]
    ensures forall j :: 0 <= j < |best| ==>
              lb[j] <= WindowLow(best, d, lb, ub)[j] <= WindowHigh(best, d, lb, ub)[j] <= ub[j]
  {
    forall j | 0 <= j < |best|
      ensures lb[j] <= WindowLow(best, d, lb, ub)[j] <= WindowHigh(best, d, lb, ub)[j] <= ub[j]
    {
      ClipMonotone(best[j] - d[j], best[j] + d[j], lb[j], ub[j]);
    }
  }

  /** For a width `w >= 0` and a draw `u` in [0, 1), `w * u` lies in [0, w]. */
  lemma ScaledDraw(w: real, u: real)
    requires 0.0 <= w && 0.0 <= u < 1.0
    ensures 0.0 <= w * u <= w
  {
    assert w - w * u == w * (1.0 - u);
  }

  /** `np.random.uniform(low, high)`, which numpy computes from a draw `u` in
      [0, 1) as `low + (high - low) * u`. */
  function Uniform(low: Vector, high: Vector, u: Vector): (s: Vector)
    requires |low| == |high| == |u|
    requires forall j :: 0 <= j < |u| ==> 0.0 <= u[j] < 1.0
    ensures |s| == |u|
    ensures forall j :: 0 <= j < |u| && low[j] <= high[j] ==> low[j] <= s[j] <= high[j]
  {
    var s := seq(|u|, j requires 0 <= j < |u| => low[j] + (high[j] - low[j]) * u[j]);
    assert forall j :: 0 <= j < |u| && low[j] <= high[j] ==> low[j] <= s[j] <= high[j] by {
      forall j | 0 <= j < |u| && low[j] <= high[j] {
        ScaledDraw(high[j] - low[j], u[j]);
      }
    }
    s
  }

  /** A uniform sample of a window that lies inside the bounds lies inside
      the window and the bounds. */
  lemma SampleInWindow(low: Vector, high: Vector, lb: Vector, ub: Vector, u: Vector)
    requires |low| == |high| == |lb| == |ub| == |u|
    requires forall j :: 0 <= j < |u| ==> 0.0 <= u[j] < 1.0
    requires forall j :: 0 <= j < |u| ==> lb[j] <= low[j] <= high[j] <= ub[j]
    ensures forall j :: 0 <= j < |u| ==>
              low[j] <= Uniform(low, high, u)[j] <= high[j] && lb[j] <= Uniform(low, high, u)[j] <= ub[j]
  {
  }

  /** The rows one call emits: the incumbent `best`, then one uniform sample
      of the window per row of draws. */
  function Generation(best: Vector, d: Vector, lb: Vector, ub: Vector, u: Matrix): (rows: Matrix)
    requires |best| == |d| == |lb| == |ub|
    requires IsUnitMatrix(u, |u|, |best|)
    ensures IsMatrix(rows, |u| + 1, |best|) && rows[0] == best
    ensures forall k :: 0 <= k < |u| ==> rows[k + 1] == Uniform(WindowLow(best, d, lb, ub), WindowHigh(best, d, lb, ub), u[k])
  {
    [best] + seq(|u|, k requires 0 <= k < |u| => Uniform(WindowLow(best, d, lb, ub), WindowHigh(best, d, lb, ub), u[k]))
  }

  /** Drawing one more sample appends one row to the generation. */
  lemma GenerationGrows(best: Vector, d: Vector, lb: Vector, ub: Vector, u: Matrix, k: nat)
    requires |best| == |d| == |lb| == |ub|
    requires IsUnitMatrix(u, |u|, |best|) && k < |u|
    ensures Generation(best, d, lb, ub, u[..k + 1]) ==
            Generation(best, d, lb, ub, u[..k]) + [Uniform(WindowLow(best, d, lb, ub), WindowHigh(best, d, lb, ub), u[k])]
  {
    assert u[..k + 1][..k] == u[..k];
  }

  /** The sampling loop of `__call__`: start from the incumbent and append
      one uniform sample of the window per row of draws. */
  method SampleAround(best: Vector, d: Vector, lb: Vector, ub: Vector, u: Matrix) returns (rows: Matrix)
    requires |best| == |d| == |lb| == |ub|
    requires IsUnitMatrix(u, |u|, |best|)
    ensures rows == Generation(best, d, lb, ub, u)
  {
    rows := [best];
    var k := 0;
    while k < |u|
      invariant 0 <= k <= |u|
      invariant rows == Generation(best, d, lb, ub, u[..k])
    {
      rows := rows + [Uniform(WindowLow(best, d, lb, ub), WindowHigh(best, d, lb, ub), u[k])];
      GenerationGrows(best, d, lb, ub, u, k);
      k := k + 1;
    }
    assert u[..k] == u;
  }

  /** Shrinking a half-width that follows the cooling schedule after `calls`
      calls gives the half-width the schedule prescribes after `calls + 1`. */
  lemma CoolingStep(initial: Vector, before: Vector, after: Vector, calls: nat)
    requires |initial| == |before| == |after|
    requires forall j :: 0 <= j < |before| ==> before[j] == initial[j] * Pow(Shrink, calls)
    requires forall j :: 0 <= j < |after| ==> after[j] == before[j] * Shrink
    ensures forall j :: 0 <= j < |after| ==> after[j] == initial[j] * Pow(Shrink, calls + 1)
  {
    forall j | 0 <= j < |after|
      ensures after[j] == initial[j] * Pow(Shrink, calls + 1)
    {
      var p := Pow(Shrink, calls);
      assert initial[j] * p * Shrink == initial[j] * (p * Shrink);
    }
  }

  /** The whole of `__call__` before the state update: split the collection,
      take the first row of least fitness (argmin of an empty column raises
      ValueError) and emit its generation under the parameter names. */
  function Step(config: ParameterConfig, d: Vector, pc: Collection, u: Matrix): (r: Result<Collection>)
    requires config.WellFormed() && |d| == config.Dim() && pc.WellFormed()
    requires IsUnitMatrix(u, |u|, config.Dim())
    ensures r.Ok? ==> r.value.columns == config.names && IsMatrix(r.value.rows, |u| + 1, config.Dim())
    ensures r.Ok? ==> r.value.rows == Generation(r.value.rows[0], d, config.lbounds, config.ubounds, u)
  {
    match SplitParameterCollection(pc, config.names)
    case Err(e) => Err(e)
    case Ok((fitness, parameters)) =>
      if |fitness| == 0 then Err(ValueError("attempt to get argmin of an empty sequence"))
      else
        var best := parameters[FirstArgMin(fitness)];
        Ok(Collection(config.names, Generation(best, d, config.lbounds, config.ubounds, u)))
  }

  /** Elitism and size: a call succeeds exactly when the collection has the
      needed columns and at least one row; it then emits one row more than
      there are sample draws, and its first row is the parameter vector of
      the first row of least fitness. */
  lemma Elitism(config: ParameterConfig, d: Vector, pc: Collection, u: Matrix)
    requires config.WellFormed() && |d| == config.Dim() && pc.WellFormed()
    requires IsUnitMatrix(u, |u|, config.Dim())
    ensures Step(config, d, pc, u).Ok? <==> SplitParameterCollection(pc, config.names).Ok? && |pc.rows| > 0
    ensures Step(config, d, pc, u).Ok? ==>
              var split := SplitParameterCollection(pc, config.names).value;
              var rows := Step(config, d, pc, u).value.rows;
              && |rows| == |u| + 1
              && exists p :: 0 <= p < |split.0|
                             && rows[0] == split.1[p]
                             && (forall q :: 0 <= q < |split.0| ==> split.0[p] <= split.0[q])
                             && (forall q :: 0 <= q < p ==> split.0[q] > split.0[p])
  {
    var split := SplitParameterCollection(pc, config.names);
    if split.Ok? && |pc.rows| > 0 {
      var p := FirstArgMin(split.value.0);
      assert Step(config, d, pc, u).value.rows[0] == split.value.1[p];
    }
  }

  /** Feasibility: with ordered bounds and a non-negative half-width every
      sampled row lies in the clipped window, hence within the bounds; if the
      incumbent is within the bounds too, so is every emitted row. */
  lemma Feasibility(config: ParameterConfig, d: Vector, pc: Collection, u: Matrix)
    requires config.WellFormed() && |d| == config.Dim() && pc.WellFormed()
    requires IsUnitMatrix(u, |u|, config.Dim())
    requires config.Ordered() && forall j :: 0 <= j < |d| ==> 0.0 <= d[j]
    requires Step(config, d, pc, u).Ok?
    ensures var rows := Step(config, d, pc, u).value.rows;
            var best := rows[0];
            forall k, j :: 1 <= k < |rows| && 0 <= j < |config.names| ==>
              && WindowLow(best, d, config.lbounds, config.ubounds)[j] <= rows[k][j] <= WindowHigh(best, d, config.lbounds, config.ubounds)[j]
              && config.lbounds[j] <= rows[k][j] <= config.ubounds[j]
    ensures var rows := Step(config, d, pc, u).value.rows;
            InBounds(rows[0], config.lbounds, config.ubounds) ==>
              forall k :: 0 <= k < |rows| ==> InBounds(rows[k], config.lbounds, config.ubounds)
  {
    var rows := Step(config, d, pc, u).value.rows;
    var best := rows[0];
    var lb, ub := config.lbounds, config.ubounds;
    WindowInsideBounds(best, d, lb, ub);
    var low, high := WindowLow(best, d, lb, ub), WindowHigh(best, d, lb, ub);
    forall k | 1 <= k < |rows|
      ensures forall j :: 0 <= j < |config.names| ==> low[j] <= rows[k][j] <= high[j] && lb[j] <= rows[k][j] <= ub[j]
    {
      SampleInWindow(low, high, lb, ub, u[k - 1]);
    }
  }

  /** The example of a two-parameter search: three rows with fitness 5, 1
      and 9 and three samples give four rows, the first being (4, 4). */
  lemma ExampleKeepsBestRow(u: Matrix)
    requires IsUnitMatrix(u, 3, 2)
    ensures var config := ParameterConfig(["a", "b"], [0.0, 0.0], [10.0, 10.0]);
            var pc := Collection(["a", "b", FitnessColumn], [[1.0, 1.0, 5.0], [4.0, 4.0, 1.0], [9.0, 9.0, 9.0]]);
            var r := Step(config, InitialHalfWidth(config), pc, u);
            r.Ok? && |r.value.rows| == 4 && r.value.rows[0] == [4.0, 4.0]
  {
    var config := ParameterConfig(["a", "b"], [0.0, 0.0], [10.0, 10.0]);
    var pc := Collection(["a", "b", FitnessColumn], [[1.0, 1.0, 5.0], [4.0, 4.0, 1.0], [9.0, 9.0, 9.0]]);
    assert pc.WellFormed();
    var split := SplitParameterCollection(pc, config.names);
    assert split.Ok?;
    assert split.value.0 == [5.0, 1.0, 9.0];
    assert IndexOf(pc.columns, "a") == Some(0);
    assert IndexOf(pc.columns, "b") == Some(1);
    assert split.value.1[1] == [4.0, 4.0];
    assert FirstArgMin(split.value.0) == 1;
  }

  class LuusJaakolaOptimizer {
    const config: ParameterConfig
    const n: int
    /** `self.x`: set to the midpoint of the box and never read again. */
    const x: Vector
    /** `self.d`: the current half-width of the sampling window. */
    var d: Vector
    /** Number of completed calls. */
    ghost var calls: nat

    /** The cooling schedule: after `calls` calls, the half-width is the
        initial one times 0.95 to the power `calls`. */
    ghost predicate Valid()
      reads this
    {
      && config.WellFormed()
      && x == Midpoint(config)
      && |d| == config.Dim()
      && forall j :: 0 <= j < |d| ==> d[j] == InitialHalfWidth(config)[j] * Pow(Shrink, calls)
    }

    constructor (parameterConfig: ParameterConfig, numberOfSamples: int)
      requires parameterConfig.WellFormed()
      ensures Valid()
      ensures config == parameterConfig && n == numberOfSamples
      ensures d == InitialHalfWidth(config) && calls == 0
    {
      config := parameterConfig;
      x := Midpoint(parameterConfig);
      n := numberOfSamples;
      d := InitialHalfWidth(parameterConfig);
      calls := 0;
    }

    /** `__call__`, with the uniform draws of its `n` samples given as rows
        of `u`. A failed split or an empty collection raises before `d` is
        touched; otherwise the emitted collection is `Step` of the old
        half-width and `d` shrinks by 0.95, whatever the fitness values. */
    method Advance(pc: Collection, u: Matrix) returns (r: Result<Collection>)
      requires Valid() && pc.WellFormed()
      requires IsUnitMatrix(u, Samples(n), config.Dim())
      modifies this
      ensures Valid()
      ensures r == Step(config, old(d), pc, u)
      ensures r.Ok? ==> calls == old(calls) + 1 && forall j :: 0 <= j < |d| ==> d[j] == old(d)[j] * Shrink
      ensures r.Err? ==> calls == old(calls) && d == old(d)
    {
      var split := SplitParameterCollection(pc, config.names);
      if split.Err? {
        return Err(split.error);
      }
      var (fitness, parameters) := split.value;
      if |fitness| == 0 {
        return Err(ValueError("attempt to get argmin of an empty sequence"));
      }
      var bestX := parameters[FirstArgMin(fitness)];
      var oldD := d;
      var newParameters := SampleAround(bestX, oldD, config.lbounds, config.ubounds, u);
      assert Step(config, oldD, pc, u) == Ok(Collection(config.names, newParameters));
      Cool();
      r := Ok(Collection(config.names, newParameters));
    }

    /** `self.d *= 0.95`: one step of the cooling schedule. */
    method Cool()
      requires Valid()
      modifies this
      ensures Valid()
      ensures calls == old(calls) + 1 && |d| == |old(d)| && forall j :: 0 <= j < |d| ==> d[j] == old(d)[j] * Shrink
    {
      var oldD := d;
      var newD := seq(|oldD|, j requires 0 <= j < |oldD| => oldD[j] * Shrink);
      assert forall j :: 0 <= j < |newD| ==> newD[j] == oldD[j] * Shrink;
      CoolingStep(InitialHalfWidth(config), oldD, newD, calls);
      d := newD;
      calls := calls + 1;
    }

    /** The half-width never goes negative for ordered bounds, and no call
        widens it. */
    lemma HalfWidthShrinks()
      requires Valid() && config.Ordered()
      ensures forall j :: 0 <= j < |d| ==> 0.0 <= d[j] * Shrink <= d[j]
    {
      PowShrinks(Shrink, calls);
      forall j | 0 <= j < |d|
        ensures 0.0 <= d[j] * Shrink <= d[j]
      {
        var h := InitialHalfWidth(config)[j];
        assert 0.0 <= h;
        assert 0.0 <= d[j] by {
          assert d[j] == h * Pow(Shrink, calls);
        }
      }
    }
  }
}

/** `PSOOptimizerGbest`: a constricted particle swarm in which every
    particle is pulled towards its own best position and towards the best
    position found by the other particles. The incoming rows carry the
    parameter values followed by the fitness in the last column. */
module ParticleSwarm {
  import opened Basics
  import opened Parameters

  /** `self.c1`, the pull towards the particle's own best. */
  const C1: real := 2.05

  /** `self.c2`, the pull towards the neighbourhood's best. */
  const C2: real := 2.05

  /** `s` is the square root in the constriction factor,
      `sqrt((c1 + c2) ** 2 - 4 * (c1 + c2))`. */
  ghost predicate IsSqrtTerm(s: real) {
    0.0 <= s && s * s == (C1 + C2) * (C1 + C2) - 4.0 * (C1 + C2)
  }

  /** `self.chi`, given the square-root term. */
  function Constriction(s: real): (chi: real)
    requires 0.0 <= s
    ensures chi * (C1 + C2 - 2.0 + s) == 2.0
  {
    2.0 / (C1 + C2 - 2.0 + s)
  }

  /** A product is positive with one positive factor only when the other is
      positive too. */
  lemma PositiveFactor(a: real, b: real)
    requires 0.0 < b && 0.0 < a * b
    ensures 0.0 < a
  {
  }

  /** The constriction factor lies strictly between 0.72 and 0.73, so it
      damps every velocity it multiplies. */
  lemma ConstrictionRange(s: real)
    requires IsSqrtTerm(s)
    ensures 0.72 < Constriction(s) < 0.73
  {
    assert s * s == 0.41;
    var below, above := s - 0.64, 0.65 - s;
    assert below * (s + 0.64) == s * s - 0.4096;
    assert 0.0 < below * (s + 0.64);
    PositiveFactor(below, s + 0.64);
    assert above * (0.65 + s) == 0.4225 - s * s;
    assert 0.0 < above * (0.65 + s);
    PositiveFactor(above, 0.65 + s);
    var chi := Constriction(s);
    assert chi * (2.1 + s) == 2.0;
    assert chi * 2.74 < 2.0 < chi * 2.76;
  }

  /** The parameter part of every row: all columns but the last. */
  function Positions(rows: Matrix, dim: nat): (p: Matrix)
    requires IsMatrix(rows, |rows|, dim + 1)
    ensures IsMatrix(p, |rows|, dim)
    ensures forall i, j :: 0 <= i < |rows| && 0 <= j < dim ==> p[i][j] == rows[i][j]
  {
    seq(|rows|, i requires 0 <= i < |rows| => rows[i][..dim])
  }

  /** The fitness of every row: its last column. */
  function Fitnesses(rows: Matrix, dim: nat): (f: Vector)
    requires IsMatrix(rows, |rows|, dim + 1)
    ensures |f| == |rows|
    ensures forall i :: 0 <= i < |rows| ==> f[i] == rows[i][|rows[i]| - 1]
  {
    seq(|rows|, i requires 0 <= i < |rows| => rows[i][dim])
  }

  /** The neighbour whose best is the lowest, the first of them on a tie
      (`min` over `neighbourhood(index)` keyed by the personal best). */
  function Guide(py: Vector, index: nat): (g: nat)
    requires index < |py| && 2 <= |py|
    ensures g < |py| && g != index
    ensures forall q :: 0 <= q < |py| && q != index ==> py[g] <= py[q]
    ensures forall q :: 0 <= q < g && q != index ==> py[q] > py[g]
  {
    var others := OtherIndices(|py|, index);
    var values := seq(|others|, k requires 0 <= k < |others| => py[others[k]]);
    var p := FirstArgMin(values);
    assert forall q :: 0 <= q < |py| && q != index ==> py[others[p]] <= py[q] by {
      forall q | 0 <= q < |py| && q != index
        ensures py[others[p]] <= py[q]
      {
        var k := if q < index then q else q - 1;
        assert others[k] == q;
        assert values[p] <= values[k];
      }
    }
    assert forall q :: 0 <= q < others[p] && q != index ==> py[q] > py[others[p]] by {
      forall q | 0 <= q < others[p] && q != index
        ensures py[q] > py[others[p]]
      {
        var k := if q < index then q else q - 1;
        assert others[k] == q;
        assert k < p;
        assert values[k] > values[p];
      }
    }
    others[p]
  }

  /** "Gbest": every particle other than the first best one is guided by
      that particle. */
  lemma GlobalBestGuidesOthers(py: Vector, index: nat)
    requires index < |py| && 2 <= |py| && index != FirstArgMin(py)
    ensures Guide(py, index) == FirstArgMin(py)
  {
    var g, h := FirstArgMin(py), Guide(py, index);
    assert py[g] == py[h];
  }

  /** `gx`: the personal best of every particle's guide. */
  function GuidePositions(px: Matrix, py: Vector): (gx: Matrix)
    requires |px| == |py| != 1
    ensures |gx| == |px|
  {
    seq(|px|, i requires 0 <= i < |px| => px[Guide(py, i)])
  }

  /** The constricted velocity update,
      `chi * (v + c1 * r1 * (px - x) + c2 * r2 * (gx - x))`, entry by entry. */
  function Velocity(chi: real, v: Matrix, x: Matrix, px: Matrix, gx: Matrix, r1: Matrix, r2: Matrix, dim: nat): (w: Matrix)
    requires IsMatrix(v, |x|, dim) && IsMatrix(x, |x|, dim) && IsMatrix(px, |x|, dim) && IsMatrix(gx, |x|, dim)
    requires IsMatrix(r1, |x|, dim) && IsMatrix(r2, |x|, dim)
    ensures IsMatrix(w, |x|, dim)
  {
    seq(|x|, i requires 0 <= i < |x| => seq(dim, j requires 0 <= j < dim =>
      chi * (v[i][j] + C1 * r1[i][j] * (px[i][j] - x[i][j]) + C2 * r2[i][j] * (gx[i][j] - x[i][j]))))
  }

  /** Element-wise sum of two matrices of the same shape. */
  function Add(x: Matrix, v: Matrix, dim: nat): (s: Matrix)
    requires IsMatrix(x, |x|, dim) && IsMatrix(v, |x|, dim)
    ensures IsMatrix(s, |x|, dim)
  {
    seq(|x|, i requires 0 <= i < |x| => seq(dim, j requires 0 <= j < dim => x[i][j] + v[i][j]))
  }

  /** The rows emitted: each moved particle, or its personal best when the
      move leaves the bounds. */
  function Emitted(moved: Matrix, px: Matrix, lb: Vector, ub: Vector): (rows: Matrix)
    requires |lb| == |ub| && IsMatrix(moved, |moved|, |lb|) && IsMatrix(px, |moved|, |lb|)
    ensures IsMatrix(rows, |moved|, |lb|)
  {
    seq(|moved|, i requires 0 <= i < |moved| => if ViolatesBounds(moved[i], lb, ub) then px[i] else moved[i])
  }

  /** Every emitted row is within the bounds or is the particle's personal
      best; so when the personal bests are within the bounds, so is every
      emitted row. */
  lemma EmittedInBounds(moved: Matrix, px: Matrix, lb: Vector, ub: Vector)
    requires |lb| == |ub| && IsMatrix(moved, |moved|, |lb|) && IsMatrix(px, |moved|, |lb|)
    ensures forall i :: 0 <= i < |moved| ==>
              var row := Emitted(moved, px, lb, ub)[i];
              (row == moved[i] && InBounds(row, lb, ub)) || (row == px[i] && !InBounds(moved[i], lb, ub))
    ensures (forall i :: 0 <= i < |moved| ==> InBounds(px[i], lb, ub)) ==>
              forall i :: 0 <= i < |moved| ==> InBounds(Emitted(moved, px, lb, ub)[i], lb, ub)
  {
  }

  /** On the first call every particle sits at its personal best with zero
      velocity, so it moves only towards its guide: each coordinate of the new
      velocity has the sign of the guide's offset. */
  lemma FirstMoveTowardsGuide(chi: real, x: Matrix, gx: Matrix, r1: Matrix, r2: Matrix, dim: nat, i: nat, j: nat)
    requires 0.0 < chi && IsMatrix(x, |x|, dim) && IsMatrix(gx, |x|, dim)
    requires IsUnitMatrix(r1, |x|, dim) && IsUnitMatrix(r2, |x|, dim)
    requires i < |x| && j < dim
    ensures var w := Velocity(chi, Zeros(|x|, dim), x, x, gx, r1, r2, dim);
            && w[i][j] == chi * C2 * r2[i][j] * (gx[i][j] - x[i][j])
            && (x[i][j] <= gx[i][j] ==> 0.0 <= w[i][j])
            && (gx[i][j] <= x[i][j] ==> w[i][j] <= 0.0)
  {
    var w := Velocity(chi, Zeros(|x|, dim), x, x, gx, r1, r2, dim);
    var pull := C2 * r2[i][j] * (gx[i][j] - x[i][j]);
    assert w[i][j] == chi * pull;
    assert 0.0 <= C2 * r2[i][j];
    if x[i][j] <= gx[i][j] {
      assert 0.0 <= pull;
    } else {
      assert pull <= 0.0;
    }
  }

  /** A particle at its own best and its guide's best only keeps its
      velocity, scaled down by the constriction factor. */
  lemma StagnantVelocityDecays(chi: real, v: Matrix, x: Matrix, px: Matrix, gx: Matrix, r1: Matrix, r2: Matrix, dim: nat, i: nat)
    requires IsMatrix(v, |x|, dim) && IsMatrix(x, |x|, dim) && IsMatrix(px, |x|, dim) && IsMatrix(gx, |x|, dim)
    requires IsMatrix(r1, |x|, dim) && IsMatrix(r2, |x|, dim)
    requires i < |x| && px[i] == x[i] && gx[i] == x[i]
    ensures forall j :: 0 <= j < dim ==> Velocity(chi, v, x, px, gx, r1, r2, dim)[i][j] == chi * v[i][j]
  {
  }

  /** `np.zeros((rows, cols))`. */
  function Zeros(rows: nat, cols: nat): (z: Matrix)
    ensures IsMatrix(z, rows, cols)
    ensures forall i, j :: 0 <= i < rows && 0 <= j < cols ==> z[i][j] == 0.0
  {
    seq(rows, i => seq(cols, j => 0.0))
  }

  class PSOOptimizer {
    const config: ParameterConfig
    /** `self.n`, the number of particles. */
    const n: int
    /** `self.chi`. */
    const chi: real
    /** False while `self.x` is None. */
    var initialized: bool
    /** Current positions. */
    var x: Matrix
    /** Fitness of the first positions (set once, never read again). */
    var y: Vector
    /** Personal best positions and their fitness. */
    var px: Matrix
    var py: Vector
    /** Current velocities. */
    var v: Matrix

    ghost predicate Valid()
      reads this
    {
      && config.WellFormed()
      && 0.72 < chi < 0.73
      && (initialized ==>
            && IsMatrix(x, n, config.Dim()) && IsMatrix(px, n, config.Dim()) && IsMatrix(v, n, config.Dim())
            && |y| == n && |py| == n)
    }

    /** The constructor; `sqrtTerm` is the value numpy's `sqrt` returns. */
    constructor (parameterConfig: ParameterConfig, numberOfSamples: int, sqrtTerm: real)
      requires parameterConfig.WellFormed() && IsSqrtTerm(sqrtTerm)
      ensures Valid() && !initialized
      ensures config == parameterConfig && n == numberOfSamples && chi == Constriction(sqrtTerm)
    {
      ConstrictionRange(sqrtTerm);
      config := parameterConfig;
      n := numberOfSamples;
      chi := Constriction(sqrtTerm);
      initialized := false;
      x, y, px, py, v := [], [], [], [], [];
    }

    /** First call: store the positions as current and personal bests with
        zero velocity. Later calls: a particle whose new fitness is strictly
        lower than its best takes the new position as its best. */
    method UpdateBests(newX: Matrix, newY: Vector)
      requires Valid() && 0 <= n && IsMatrix(newX, n, config.Dim()) && |newY| == n
      modifies this
      ensures Valid() && initialized
      ensures !old(initialized) ==> x == newX && y == newY && px == newX && py == newY && v == Zeros(n, config.Dim())
      ensures old(initialized) ==> x == old(x) && y == old(y) && v == old(v) &&
                                   px == SelectedPopulation(old(px), old(py), newX, newY) &&
                                   py == SelectedFitness(old(py), newY)
    {
      if !initialized {
        x, y, px, py := newX, newY, newX, newY;
        v := Zeros(n, config.Dim());
        initialized := true;
        return;
      }
      var index := 0;
      while index < |newX|
        invariant 0 <= index <= n && initialized
        invariant x == old(x) && y == old(y) && v == old(v)
        invariant IsMatrix(px, n, config.Dim()) && |py| == n
        invariant forall k :: 0 <= k < index ==>
                    px[k] == (if newY[k] < old(py)[k] then newX[k] else old(px)[k]) &&
                    py[k] == (if newY[k] < old(py)[k] then newY[k] else old(py)[k])
        invariant forall k :: index <= k < n ==> px[k] == old(px)[k] && py[k] == old(py)[k]
      {
        if newY[index] < py[index] {
          px := px[index := newX[index]];
          py := py[index := newY[index]];
        }
        index := index + 1;
      }
    }

    /** The loop filling `gx`: each particle's guide's personal best. */
    method GuideRows() returns (gx: Matrix)
      requires Valid() && initialized && n != 1
      ensures gx == GuidePositions(px, py)
    {
      gx := Zeros(|x|, config.Dim());
      var index := 0;
      while index < |x|
        invariant 0 <= index <= n && |gx| == n
        invariant forall k :: 0 <= k < index ==> gx[k] == px[Guide(py, k)]
      {
        gx := gx[index := px[Guide(py, index)]];
        index := index + 1;
      }
    }

    /** The loop choosing each emitted row. */
    method EmitRows(moved: Matrix) returns (candidates: Matrix)
      requires Valid() && initialized && IsMatrix(moved, n, config.Dim())
      ensures candidates == Emitted(moved, px, config.lbounds, config.ubounds)
    {
      candidates := moved;
      var index := 0;
      while index < |moved|
        invariant 0 <= index <= n && |candidates| == n
        invariant forall k :: 0 <= k < index ==> candidates[k] == Emitted(moved, px, config.lbounds, config.ubounds)[k]
        invariant forall k :: index <= k < n ==> candidates[k] == moved[k]
      {
        if !ViolatesBounds(moved[index], config.lbounds, config.ubounds) {
          candidates := candidates[index := moved[index]];
        } else {
          candidates := candidates[index := px[index]];
        }
        index := index + 1;
      }
    }

    /** `__call__`, given the two matrices of `np.random.sample`. With a
        single particle its neighbourhood is empty and `min` raises after the
        personal bests are stored. */
    method Advance(pc: Collection, r1: Matrix, r2: Matrix) returns (r: Result<Collection>)
      requires Valid() && 0 <= n && IsMatrix(pc.rows, n, config.Dim() + 1)
      requires IsUnitMatrix(r1, n, config.Dim()) && IsUnitMatrix(r2, n, config.Dim())
      modifies this
      ensures Valid() && initialized
      ensures var newX, newY := Positions(pc.rows, config.Dim()), Fitnesses(pc.rows, config.Dim());
              && (!old(initialized) ==> y == newY && px == newX && py == newY)
              && (old(initialized) ==> y == old(y) && px == SelectedPopulation(old(px), old(py), newX, newY) &&
                                       py == SelectedFitness(old(py), newY))
      ensures var x0 := if old(initialized) then old(x) else Positions(pc.rows, config.Dim());
              var v0 := if old(initialized) then old(v) else Zeros(n, config.Dim());
              && (n == 1 ==> x == x0 && v == v0 && r == Err(ValueError("min() arg is an empty sequence")))
              && (n != 1 ==> v == Velocity(chi, v0, x0, px, GuidePositions(px, py), r1, r2, config.Dim()) &&
                             x == Add(x0, v, config.Dim()) &&
                             r == Ok(Collection(config.names, Emitted(x, px, config.lbounds, config.ubounds))))
    {
      var newX, newY := Positions(pc.rows, config.Dim()), Fitnesses(pc.rows, config.Dim());
      UpdateBests(newX, newY);
      if n == 1 {
        return Err(ValueError("min() arg is an empty sequence"));
      }
      var gx := GuideRows();
      v := Velocity(chi, v, x, px, gx, r1, r2, config.Dim());
      var moved := Add(x, v, config.Dim());
      var candidates := EmitRows(moved);
      x := moved;
      r := Ok(Collection(config.names, candidates));
    }
  }
}

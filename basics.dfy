/** Shared vocabulary of the optimizer engine: parameter vectors as sequences
    of reals, the exceptions the Python code raises, and the small element-wise
    helpers (np.clip, violates_bounds, argmin, the "other indices" list) that
    several strategies use. */
module Basics {

  /** One parameter vector (a row of a ParameterCollection). */
  type Vector = seq<real>

  /** Rows of parameter vectors (a numpy 2-d array). */
  type Matrix = seq<Vector>

  /** The exceptions raised by the modelled code. */
  datatype Error =
    | KeyError(key: string)
    | ValueError(reason: string)
    | ZeroDivisionError
    | NotImplementedError

  datatype Result<T> = Ok(value: T) | Err(error: Error)

  datatype Option<T> = None | Some(value: T)

  datatype Outcome = Pass | Fail(error: Error)

  /** `m` has `rows` rows of `cols` entries each. */
  predicate IsMatrix(m: Matrix, rows: int, cols: int) {
    |m| == rows && forall i :: 0 <= i < |m| ==> |m[i]| == cols
  }

  /** Element-wise bounds, both ends inclusive. */
  ghost predicate InBounds(x: Vector, lb: Vector, ub: Vector)
    requires |x| == |lb| == |ub|
  {
    forall j :: 0 <= j < |x| ==> lb[j] <= x[j] <= ub[j]
  }

  /** numpy's `any(a < b)`, one element at a time from the front. */
  function AnyLess(a: Vector, b: Vector): (r: bool)
    requires |a| == |b|
    ensures r <==> exists j :: 0 <= j < |a| && a[j] < b[j]
  {
    if |a| == 0 then false
    else a[0] < b[0] || AnyLess(a[1..], b[1..])
  }

  /** `violates_bounds`: `any(x < lbounds) or any(x > ubounds)`. A value
      equal to a bound does not violate it. */
  function ViolatesBounds(x: Vector, lb: Vector, ub: Vector): (r: bool)
    requires |x| == |lb| == |ub|
    ensures !r <==> InBounds(x, lb, ub)
  {
    AnyLess(x, lb) || AnyLess(ub, x)
  }

  /** `np.clip(v, lo, hi)`, which numpy computes as `min(max(v, lo), hi)`. */
  function Clip(v: real, lo: real, hi: real): (r: real)
    ensures lo <= hi ==> lo <= r <= hi
    ensures lo <= v <= hi ==> r == v
    ensures v < lo <= hi ==> r == lo
    ensures lo <= hi < v ==> r == hi
  {
    var m := if v < lo then lo else v;
    if m > hi then hi else m
  }

  /** Clipping to the same interval keeps the order of two values. */
  lemma ClipMonotone(v: real, w: real, lo: real, hi: real)
    requires v <= w
    ensures Clip(v, lo, hi) <= Clip(w, lo, hi)
  {
  }

  /** Every entry of the `rows` by `cols` matrix `u` lies in [0, 1), the range
      of numpy's `random_sample` and Python's `random.random`. */
  predicate IsUnitMatrix(u: Matrix, rows: int, cols: int) {
    IsMatrix(u, rows, cols) && forall i, j :: 0 <= i < |u| && 0 <= j < |u[i]| ==> 0.0 <= u[i][j] < 1.0
  }

  /** Position of the first minimum of a non-empty sequence: numpy's
      `argmin`, and Python's `min` with a key, which keeps the earlier of
      two equal elements. */
  function FirstArgMin(s: seq<real>): (p: nat)
    requires |s| > 0
    ensures p < |s|
    ensures forall q :: 0 <= q < |s| ==> s[p] <= s[q]
    ensures forall q :: 0 <= q < p ==> s[q] > s[p]
    decreases |s|
  {
    if |s| == 1 then 0
    else
      var p' := 1 + FirstArgMin(s[1..]);
      if s[0] <= s[p'] then 0 else p'
  }

  /** `[i for i in range(n) if i != index]`. */
  function OtherIndices(n: nat, index: nat): (s: seq<nat>)
    ensures |s| == if index < n then n - 1 else n
    ensures forall k :: 0 <= k < |s| ==> s[k] < n && s[k] != index
    ensures forall k :: 0 <= k < |s| ==> s[k] == if k < index then k else k + 1
    decreases n
  {
    if n == 0 then []
    else if n - 1 == index then OtherIndices(n - 1, index)
    else OtherIndices(n - 1, index) + [n - 1]
  }

  /** b raised to the k-th power. */
  function Pow(b: real, k: nat): real
    decreases k
  {
    if k == 0 then 1.0 else Pow(b, k - 1) * b
  }

  /** A factor in (0, 1] raised to any power stays in (0, 1], and each
      further power is no larger. */
  lemma {:induction false} PowShrinks(b: real, k: nat)
    requires 0.0 < b <= 1.0
    ensures 0.0 < Pow(b, k) <= 1.0
    ensures Pow(b, k + 1) <= Pow(b, k)
    decreases k
  {
    if k > 0 {
      PowShrinks(b, k - 1);
    }
    assert Pow(b, k + 1) == Pow(b, k) * b;
  }

  /** Greedy replacement, slot by slot: slot `i` takes the new vector only
      when its new fitness is strictly lower (the DE selection step and the
      PSO personal-best update). */
  function SelectedPopulation(pop: Matrix, fit: Vector, newPop: Matrix, newFit: Vector): (r: Matrix)
    requires |pop| == |fit| == |newPop| == |newFit|
    ensures |r| == |pop|
  {
    seq(|pop|, i requires 0 <= i < |pop| => if newFit[i] < fit[i] then newPop[i] else pop[i])
  }

  /** The fitness values kept by the same greedy replacement. */
  function SelectedFitness(fit: Vector, newFit: Vector): (r: Vector)
    requires |fit| == |newFit|
    ensures |r| == |fit|
  {
    seq(|fit|, i requires 0 <= i < |fit| => if newFit[i] < fit[i] then newFit[i] else fit[i])
  }

  /** Each stored fitness becomes the lower of the stored and the new value,
      so it never increases; slot `i` changes exactly when the new fitness is
      strictly lower, and then vector and fitness move together. */
  lemma SelectionIsGreedy(pop: Matrix, fit: Vector, newPop: Matrix, newFit: Vector, i: nat)
    requires |pop| == |fit| == |newPop| == |newFit| && i < |pop|
    ensures SelectedFitness(fit, newFit)[i] <= fit[i] && SelectedFitness(fit, newFit)[i] <= newFit[i]
    ensures SelectedFitness(fit, newFit)[i] == fit[i] || SelectedFitness(fit, newFit)[i] == newFit[i]
    ensures newFit[i] < fit[i] ==> SelectedPopulation(pop, fit, newPop, newFit)[i] == newPop[i]
    ensures fit[i] <= newFit[i] ==> SelectedPopulation(pop, fit, newPop, newFit)[i] == pop[i] && SelectedFitness(fit, newFit)[i] == fit[i]
  {
  }
}

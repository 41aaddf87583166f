/** The data the optimizers exchange with the driver: the parameter
    configuration (names and box bounds) and the ParameterCollection, a table
    of rows with named columns. `BaseOptimizer.split_parameter_collection`
    and `BaseOptimizer.normalize_parameter_collection` live here. */
module Parameters {
  import opened Basics

  /** Name of the column the driver fills with each row's fitness. */
  const FitnessColumn: string := "dalek.fitness"

  /** Columns whose name starts with this are abundances. */
  const AbundancePrefix: string := "model.abundances"

  /** Parameter names with their lower and upper bounds, in matching order. */
  datatype ParameterConfig = ParameterConfig(names: seq<string>, lbounds: Vector, ubounds: Vector)
  {
    predicate WellFormed() {
      |lbounds| == |names| && |ubounds| == |names|
    }

    function Dim(): nat {
      |names|
    }

    /** Every lower bound is at most its upper bound. */
    ghost predicate Ordered()
      requires WellFormed()
    {
      forall j :: 0 <= j < |names| ==> lbounds[j] <= ubounds[j]
    }
  }

  /** A ParameterCollection: distinct column labels and rows of reals, one
      entry per column. */
  datatype Collection = Collection(columns: seq<string>, rows: Matrix)
  {
    predicate WellFormed() {
      && (forall a, b :: 0 <= a < b < |columns| ==> columns[a] != columns[b])
      && (forall i :: 0 <= i < |rows| ==> |rows[i]| == |columns|)
    }
  }

  /** Position of a column label, as pandas looks a label up. */
  function IndexOf(columns: seq<string>, name: string): (r: Option<nat>)
    ensures r.Some? <==> name in columns
    ensures r.Some? ==> r.value < |columns| && columns[r.value] == name
  {
    if |columns| == 0 then None
    else if columns[0] == name then Some(0)
    else match IndexOf(columns[1..], name)
      case None => None
      case Some(k) => Some(k + 1)
  }

  /** The first of `names` that is not a column label, if any. */
  function FirstMissing(columns: seq<string>, names: seq<string>): (r: Option<string>)
    ensures r.None? <==> forall name :: name in names ==> name in columns
    ensures r.Some? ==> r.value in names && r.value !in columns
  {
    if |names| == 0 then None
    else if names[0] !in columns then Some(names[0])
    else FirstMissing(columns, names[1..])
  }

  /** `split_parameter_collection`: the fitness column, then the parameter
      columns in the order of `names`. A missing label raises KeyError, the
      fitness column being looked up first. */
  function SplitParameterCollection(pc: Collection, names: seq<string>): (r: Result<(Vector, Matrix)>)
    requires pc.WellFormed()
    ensures r.Ok? <==> FitnessColumn in pc.columns && forall name :: name in names ==> name in pc.columns
    ensures FitnessColumn !in pc.columns ==> r == Err(KeyError(FitnessColumn))
    ensures r.Err? ==> r.error.KeyError? && r.error.key !in pc.columns
    ensures r.Ok? ==> |r.value.0| == |pc.rows| && IsMatrix(r.value.1, |pc.rows|, |names|)
    ensures r.Ok? ==> forall i, k :: 0 <= i < |pc.rows| && 0 <= k < |pc.columns| && pc.columns[k] == FitnessColumn ==>
                        r.value.0[i] == pc.rows[i][k]
    ensures r.Ok? ==> forall i, j, k :: 0 <= i < |pc.rows| && 0 <= j < |names| && 0 <= k < |pc.columns| && pc.columns[k] == names[j] ==>
                        r.value.1[i][j] == pc.rows[i][k]
  {
    match IndexOf(pc.columns, FitnessColumn)
    case None => Err(KeyError(FitnessColumn))
    case Some(f) =>
      match FirstMissing(pc.columns, names)
      case Some(missing) => Err(KeyError(missing))
      case None =>
        var fitness := seq(|pc.rows|, i requires 0 <= i < |pc.rows| => pc.rows[i][f]);
        var parameters := seq(|pc.rows|, i requires 0 <= i < |pc.rows| =>
          seq(|names|, j requires 0 <= j < |names| => pc.rows[i][IndexOf(pc.columns, names[j]).value]));
        Ok((fitness, parameters))
  }

  /** The column label starts with "model.abundances". */
  predicate IsAbundance(column: string) {
    AbundancePrefix <= column
  }

  /** Some column is an abundance column. */
  predicate HasAbundance(columns: seq<string>) {
    exists j :: 0 <= j < |columns| && IsAbundance(columns[j])
  }

  /** Sum of one row over the abundance columns (`sum(axis=1)` of the
      abundance sub-table). */
  function AbundanceSum(row: Vector, columns: seq<string>): real
    requires |row| == |columns|
  {
    if |row| == 0 then 0.0
    else (if IsAbundance(columns[0]) then row[0] else 0.0) + AbundanceSum(row[1..], columns[1..])
  }

  /** `a / t`: the share of `a` in a total `t`. */
  function Share(a: real, t: real): (r: real)
    requires t != 0.0
    ensures r * t == a
  {
    a / t
  }

  lemma ShareAdd(a: real, b: real, t: real)
    requires t != 0.0
    ensures Share(a, t) + Share(b, t) == Share(a + b, t)
  {
    assert (Share(a, t) + Share(b, t)) * t == a + b;
  }

  lemma ShareOfWhole(t: real)
    requires t != 0.0
    ensures Share(t, t) == 1.0
  {
    assert (Share(t, t) - 1.0) * t == 0.0;
  }

  /** Dividing every abundance entry of a row by `total` divides the row's
      abundance sum by `total`. */
  lemma {:induction false} AbundanceSumScaled(row: Vector, scaled: Vector, columns: seq<string>, total: real)
    requires |row| == |scaled| == |columns| && total != 0.0
    requires forall j :: 0 <= j < |row| && IsAbundance(columns[j]) ==> scaled[j] == Share(row[j], total)
    ensures AbundanceSum(scaled, columns) == Share(AbundanceSum(row, columns), total)
    decreases |row|
  {
    if |row| == 0 {
      assert Share(0.0, total) * total == 0.0;
    } else {
      AbundanceSumScaled(row[1..], scaled[1..], columns[1..], total);
      var head := if IsAbundance(columns[0]) then row[0] else 0.0;
      assert Share(0.0, total) * total == 0.0;
      ShareAdd(head, AbundanceSum(row[1..], columns[1..]), total);
    }
  }

  /** One row with its abundance entries divided by `total`. */
  function NormalizeRow(row: Vector, columns: seq<string>, total: real): (r: Vector)
    requires |row| == |columns| && total != 0.0
    ensures |r| == |row|
    ensures forall j :: 0 <= j < |row| && !IsAbundance(columns[j]) ==> r[j] == row[j]
    ensures forall j :: 0 <= j < |row| && IsAbundance(columns[j]) ==> r[j] == Share(row[j], total)
  {
    seq(|row|, j requires 0 <= j < |row| => if IsAbundance(columns[j]) then Share(row[j], total) else row[j])
  }

  /** A row divided by its own non-zero abundance sum has abundance sum one. */
  lemma NormalizedRowSumsToOne(row: Vector, columns: seq<string>)
    requires |row| == |columns| && AbundanceSum(row, columns) != 0.0
    ensures AbundanceSum(NormalizeRow(row, columns, AbundanceSum(row, columns)), columns) == 1.0
  {
    var total := AbundanceSum(row, columns);
    AbundanceSumScaled(row, NormalizeRow(row, columns, total), columns, total);
    ShareOfWhole(total);
  }

  /** Every row divided by its own abundance sum. */
  function NormalizeRows(rows: Matrix, columns: seq<string>): (r: Matrix)
    requires forall i :: 0 <= i < |rows| ==> |rows[i]| == |columns| && AbundanceSum(rows[i], columns) != 0.0
    ensures |r| == |rows|
    ensures forall i :: 0 <= i < |rows| ==> |r[i]| == |columns|
    ensures forall i, j :: 0 <= i < |rows| && 0 <= j < |columns| && !IsAbundance(columns[j]) ==> r[i][j] == rows[i][j]
    ensures forall i, j :: 0 <= i < |rows| && 0 <= j < |columns| && IsAbundance(columns[j]) ==>
              r[i][j] == Share(rows[i][j], AbundanceSum(rows[i], columns))
    ensures forall i :: 0 <= i < |rows| ==> AbundanceSum(r[i], columns) == 1.0
  {
    var r := seq(|rows|, i requires 0 <= i < |rows| => NormalizeRow(rows[i], columns, AbundanceSum(rows[i], columns)));
    assert forall i :: 0 <= i < |r| ==> AbundanceSum(r[i], columns) == 1.0 by {
      forall i | 0 <= i < |r| {
        NormalizedRowSumsToOne(rows[i], columns);
      }
    }
    r
  }

  /** `normalize_parameter_collection`: every row's abundance entries are
      divided by that row's abundance sum, other columns are untouched. With
      no abundance column nothing changes; a zero abundance sum, which pandas
      turns into NaN or infinity, is reported as ZeroDivisionError. */
  function NormalizeParameterCollection(pc: Collection): (r: Result<Collection>)
    requires pc.WellFormed()
    ensures r.Err? <==> HasAbundance(pc.columns) &&
                        exists i :: 0 <= i < |pc.rows| && AbundanceSum(pc.rows[i], pc.columns) == 0.0
    ensures r.Err? ==> r.error == ZeroDivisionError
    ensures r.Ok? ==> r.value.columns == pc.columns && |r.value.rows| == |pc.rows| && r.value.WellFormed()
    ensures r.Ok? ==> forall i, j :: 0 <= i < |pc.rows| && 0 <= j < |pc.columns| && !IsAbundance(pc.columns[j]) ==>
                        r.value.rows[i][j] == pc.rows[i][j]
    ensures r.Ok? ==> forall i, j :: 0 <= i < |pc.rows| && 0 <= j < |pc.columns| && IsAbundance(pc.columns[j]) ==>
                        r.value.rows[i][j] == Share(pc.rows[i][j], AbundanceSum(pc.rows[i], pc.columns))
    ensures r.Ok? && HasAbundance(pc.columns) ==>
              forall i :: 0 <= i < |pc.rows| ==> AbundanceSum(r.value.rows[i], pc.columns) == 1.0
  {
    if !HasAbundance(pc.columns) then Ok(pc)
    else if exists i :: 0 <= i < |pc.rows| && AbundanceSum(pc.rows[i], pc.columns) == 0.0 then Err(ZeroDivisionError)
    else Ok(Collection(pc.columns, NormalizeRows(pc.rows, pc.columns)))
  }
}

/** In-place Gauss-Jordan elimination with partial pivoting, over exact reals. The value
    functions work on whole rows; the methods touch only entries from the pivot column on. */
module LinearSolve {
  import opened Wrappers

  /** A row holds at least as many entries as there are unknowns; later entries are unused. */
  ghost predicate Square(m: seq<seq<real>>) { forall i | 0 <= i < |m| :: |m[i]| >= |m| }

  function Times(a: real, b: real): real { a * b }

  function Dot(row: seq<real>, x: seq<real>): real
    requires |x| <= |row|
    decreases |x|
  {
    if x == [] then 0.0 else Dot(row, x[..|x| - 1]) + Times(row[|x| - 1], x[|x| - 1])
  }

  /** `x` solves the system of rows `m` and right-hand side `r`. */
  ghost predicate Solves(m: seq<seq<real>>, r: seq<real>, x: seq<real>)
    requires Square(m) && |r| == |m| == |x|
  {
    forall i | 0 <= i < |m| :: Dot(m[i], x) == r[i]
  }

  // ----- the elimination, as functions of whole rows -----

  function Abs(a: real): real { if a < 0.0 then -a else a }

  function Max(a: real, b: real): real { if a < b then b else a }

  function Reduced(a: real, f: real, b: real): real { a - Times(f, b) }

  function Ratio(a: real, d: real): real
    requires d != 0.0
  {
    a / d
  }

  function RowMax(row: seq<real>, n: nat, from: real): real
    requires n <= |row|
  {
    if n == 0 then from else Max(RowMax(row, n - 1, from), Abs(row[n - 1]))
  }

  /** The largest magnitude in the first `k` rows. */
  function Largest(m: seq<seq<real>>, k: nat): real
    requires Square(m) && k <= |m|
  {
    if k == 0 then 0.0 else RowMax(m[k - 1], |m|, Largest(m, k - 1))
  }

  /** The first row at or below `column` whose entry there is largest, looking at rows up to `upto`. */
  function Pivot(m: seq<seq<real>>, column: nat, upto: nat): (p: nat)
    requires Square(m) && column < upto <= |m|
    ensures column <= p < upto
    decreases upto
  {
    if upto == column + 1 then column
    else
      var p := Pivot(m, column, upto - 1);
      if Abs(m[upto - 1][column]) > Abs(m[p][column]) then upto - 1 else p
  }

  function Swap<T>(s: seq<T>, i: nat, j: nat): seq<T>
    requires i < |s| && j < |s|
  {
    s[i := s[j]][j := s[i]]
  }

  function DivideRow(row: seq<real>, n: nat, d: real): seq<real>
    requires n <= |row| && d != 0.0
  {
    seq(|row|, j requires 0 <= j < |row| => if j < n then Ratio(row[j], d) else row[j])
  }

  function SubtractRow(row: seq<real>, n: nat, f: real, pivot: seq<real>): seq<real>
    requires n <= |row| && n <= |pivot|
  {
    seq(|row|, j requires 0 <= j < |row| => if j < n then Reduced(row[j], f, pivot[j]) else row[j])
  }

  /** Rows up to `k` other than the pivot row have had their entry in `column` cleared. */
  function ClearRows(m: seq<seq<real>>, column: nat, k: nat): seq<seq<real>>
    requires Square(m) && column < |m| && k <= |m|
  {
    seq(|m|, i requires 0 <= i < |m| =>
      if i < k && i != column then SubtractRow(m[i], |m|, m[i][column], m[column]) else m[i])
  }

  function ClearRight(m: seq<seq<real>>, r: seq<real>, column: nat, k: nat): seq<real>
    requires Square(m) && |r| == |m| && column < |m| && k <= |m|
  {
    seq(|m|, i requires 0 <= i < |m| => if i < k && i != column then Reduced(r[i], m[i][column], r[column]) else r[i])
  }

  /** One column's work on a row-swapped system whose pivot entry is not zero. */
  function StepRows(m: seq<seq<real>>, column: nat): seq<seq<real>>
    requires Square(m) && column < |m| && m[column][column] != 0.0
  {
    ClearRows(m[column := DivideRow(m[column], |m|, m[column][column])], column, |m|)
  }

  function StepRight(m: seq<seq<real>>, r: seq<real>, column: nat): seq<real>
    requires Square(m) && |r| == |m| && column < |m| && m[column][column] != 0.0
  {
    ClearRight(m[column := DivideRow(m[column], |m|, m[column][column])], r[column := Ratio(r[column], m[column][column])], column, |m|)
  }

  function Eliminate(m: seq<seq<real>>, r: seq<real>, column: nat, floor: real): Option<seq<real>>
    requires Square(m) && |r| == |m| && column <= |m| && floor >= 0.0
    decreases |m| - column
  {
    if column == |m| then Some(r)
    else
      var p := Pivot(m, column, |m|);
      if Abs(m[p][column]) <= floor then None
      else
        var m', r' := Swap(m, p, column), Swap(r, p, column);
        Eliminate(StepRows(m', column), StepRight(m', r', column), column + 1, floor)
  }

  const TOLERANCE := 0.000000000001

  function Solve(m: seq<seq<real>>, r: seq<real>): Option<seq<real>>
    requires Square(m) && |r| == |m|
  {
    var largest := Largest(m, |m|);
    if largest <= 0.0 then None else Eliminate(m, r, 0, largest * TOLERANCE)
  }

  // ----- every row operation keeps the solutions -----

  lemma {:induction false} DotDivide(row: seq<real>, n: nat, d: real, x: seq<real>)
    requires |x| <= n <= |row| && d != 0.0
    ensures Dot(DivideRow(row, n, d), x) == Dot(row, x) / d
    decreases |x|
  {
    if x != [] { DotDivide(row, n, d, x[..|x| - 1]); }
  }

  lemma {:induction false} DotSubtract(row: seq<real>, n: nat, f: real, pivot: seq<real>, x: seq<real>)
    requires |x| <= n <= |row| && n <= |pivot|
    ensures Dot(SubtractRow(row, n, f, pivot), x) == Dot(row, x) - f * Dot(pivot, x)
    decreases |x|
  {
    if x != [] {
      var k := |x| - 1;
      DotSubtract(row, n, f, pivot, x[..k]);
      assert f * (Dot(pivot, x[..k]) + pivot[k] * x[k]) == f * Dot(pivot, x[..k]) + f * (pivot[k] * x[k]);
      assert (row[k] - f * pivot[k]) * x[k] == row[k] * x[k] - f * (pivot[k] * x[k]);
    }
  }

  lemma SwapKeeps(m: seq<seq<real>>, r: seq<real>, i: nat, j: nat, x: seq<real>)
    requires Square(m) && |r| == |m| == |x| && i < |m| && j < |m|
    ensures Square(Swap(m, i, j)) && (Solves(Swap(m, i, j), Swap(r, i, j), x) <==> Solves(m, r, x))
  {
    var m', r' := Swap(m, i, j), Swap(r, i, j);
    assert m'[i] == m[j] && m'[j] == m[i] && r'[i] == r[j] && r'[j] == r[i];
    if Solves(m', r', x) {
      forall k | 0 <= k < |m| ensures Dot(m[k], x) == r[k] {
        var k' := if k == i then j else if k == j then i else k;
        assert Dot(m'[k'], x) == r'[k'];
      }
    }
  }

  lemma DivideKeeps(m: seq<seq<real>>, r: seq<real>, c: nat, d: real, x: seq<real>)
    requires Square(m) && |r| == |m| == |x| && c < |m| && d != 0.0
    ensures var m' := m[c := DivideRow(m[c], |m|, d)];
            Square(m') && (Solves(m', r[c := Ratio(r[c], d)], x) <==> Solves(m, r, x))
  {
    DotDivide(m[c], |m|, d, x);
    var m', r' := m[c := DivideRow(m[c], |m|, d)], r[c := Ratio(r[c], d)];
    if Solves(m', r', x) {
      assert Dot(m'[c], x) == r'[c];
      assert Dot(m[c], x) / d * d == Dot(m[c], x) && r[c] / d * d == r[c];
      forall k | 0 <= k < |m| ensures Dot(m[k], x) == r[k] {
        assert Dot(m'[k], x) == r'[k];
      }
    }
  }

  lemma ClearKeeps(m: seq<seq<real>>, r: seq<real>, c: nat, x: seq<real>)
    requires Square(m) && |r| == |m| == |x| && c < |m|
    ensures var m' := ClearRows(m, c, |m|);
            Square(m') && (Solves(m', ClearRight(m, r, c, |m|), x) <==> Solves(m, r, x))
  {
    var m', r' := ClearRows(m, c, |m|), ClearRight(m, r, c, |m|);
    forall i | 0 <= i < |m| && i != c
      ensures Dot(m'[i], x) == Dot(m[i], x) - m[i][c] * Dot(m[c], x)
    {
      DotSubtract(m[i], |m|, m[i][c], m[c], x);
    }
    if Solves(m', r', x) {
      assert Dot(m'[c], x) == r'[c];
      forall i | 0 <= i < |m| ensures Dot(m[i], x) == r[i] {
        assert Dot(m'[i], x) == r'[i];
      }
    }
    if Solves(m, r, x) {
      assert Dot(m[c], x) == r[c];
      forall i | 0 <= i < |m| ensures Dot(m'[i], x) == r'[i] {
        assert Dot(m[i], x) == r[i];
      }
    }
  }

  /** Columns before `k` are those of the identity. */
  predicate UnitColumns(m: seq<seq<real>>, k: nat)
    requires k <= |m| && forall i | 0 <= i < |m| :: |m[i]| >= |m|
  {
    forall i, j | 0 <= i < |m| && 0 <= j < k :: m[i][j] == if i == j then 1.0 else 0.0
  }

  lemma StepMakesUnit(m: seq<seq<real>>, c: nat)
    requires Square(m) && c < |m| && UnitColumns(m, c) && m[c][c] != 0.0
    ensures Square(StepRows(m, c)) && UnitColumns(StepRows(m, c), c + 1)
  {
    var d := DivideRow(m[c], |m|, m[c][c]);
    assert forall j | 0 <= j < c :: d[j] == 0.0;
    DivideBySelf(m[c][c]);
    assert d[c] == 1.0;
  }

  lemma DivideBySelf(a: real)
    requires a != 0.0
    ensures a / a == 1.0
  {
  }

  lemma {:induction false} DotUnit(row: seq<real>, x: seq<real>, i: nat)
    requires |x| <= |row|
    requires forall j | 0 <= j < |x| :: row[j] == if i == j then 1.0 else 0.0
    ensures Dot(row, x) == if i < |x| then x[i] else 0.0
    decreases |x|
  {
    if x != [] { DotUnit(row, x[..|x| - 1], i); }
  }

  lemma IdentitySolves(m: seq<seq<real>>, r: seq<real>, x: seq<real>)
    requires Square(m) && |r| == |m| == |x| && UnitColumns(m, |m|)
    ensures Solves(m, r, x) <==> x == r
  {
    forall i | 0 <= i < |m| ensures Dot(m[i], x) == x[i] { DotUnit(m[i], x, i); }
    assert Solves(m, r, x) <==> forall i | 0 <= i < |m| :: x[i] == r[i];
  }

  lemma StepKeeps(m: seq<seq<real>>, r: seq<real>, c: nat, x: seq<real>)
    requires Square(m) && |r| == |m| == |x| && c < |m| && m[c][c] != 0.0
    ensures Square(StepRows(m, c)) && (Solves(StepRows(m, c), StepRight(m, r, c), x) <==> Solves(m, r, x))
  {
    var d := m[c][c];
    DivideKeeps(m, r, c, d, x);
    ClearKeeps(m[c := DivideRow(m[c], |m|, d)], r[c := Ratio(r[c], d)], c, x);
  }

  lemma {:induction false} EliminateSolves(m: seq<seq<real>>, r: seq<real>, c: nat, floor: real, x: seq<real>)
    requires Square(m) && |r| == |m| == |x| && c <= |m| && floor >= 0.0 && UnitColumns(m, c)
    requires Eliminate(m, r, c, floor).Some?
    ensures |Eliminate(m, r, c, floor).value| == |m|
    ensures Solves(m, r, x) <==> x == Eliminate(m, r, c, floor).value
    decreases |m| - c
  {
    if c == |m| {
      IdentitySolves(m, r, x);
    } else {
      var p := Pivot(m, c, |m|);
      var m', r' := Swap(m, p, c), Swap(r, p, c);
      SwapKeeps(m, r, p, c, x);
      StepKeeps(m', r', c, x);
      StepMakesUnit(m', c);
      EliminateSolves(StepRows(m', c), StepRight(m', r', c), c + 1, floor, x);
    }
  }

  /** An accepted system has exactly one solution, the one returned. */
  lemma SolveIsUnique(m: seq<seq<real>>, r: seq<real>)
    requires Square(m) && |r| == |m| && Solve(m, r).Some?
    ensures |Solve(m, r).value| == |m|
    ensures forall x: seq<real> | |x| == |m| :: Solves(m, r, x) <==> x == Solve(m, r).value
  {
    var floor := Largest(m, |m|) * TOLERANCE;
    EliminateSolves(m, r, 0, floor, r);
    forall x: seq<real> | |x| == |m| ensures Solves(m, r, x) <==> x == Solve(m, r).value {
      EliminateSolves(m, r, 0, floor, x);
    }
  }

  // ----- the elimination, in place -----

  method FindLargest(matrix: array<seq<real>>, size: nat) returns (largest: real)
    requires size <= matrix.Length && Square(matrix[..size])
    ensures largest == Largest(matrix[..size], size)
  {
    largest := 0.0;
    for row := 0 to size
      invariant largest == Largest(matrix[..size], row)
    {
      for column := 0 to size
        invariant largest == RowMax(matrix[row], column, Largest(matrix[..size], row))
      {
        largest := Max(largest, Abs(matrix[row][column]));
      }
    }
  }

  method FindPivot(matrix: array<seq<real>>, size: nat, column: nat) returns (pivot: nat)
    requires column < size <= matrix.Length && Square(matrix[..size])
    ensures pivot == Pivot(matrix[..size], column, size)
  {
    pivot := column;
    for row := column + 1 to size
      invariant pivot == Pivot(matrix[..size], column, row)
    {
      if Abs(matrix[row][column]) > Abs(matrix[pivot][column]) { pivot := row; }
    }
  }

  /** Divides only from the pivot column on: before it the row is zero. */
  method DivideFrom(row: seq<real>, from: nat, size: nat, d: real) returns (r: seq<real>)
    requires from <= size <= |row| && d != 0.0
    requires forall j | 0 <= j < from :: row[j] == 0.0
    ensures r == DivideRow(row, size, d)
  {
    r := row;
    for entry := from to size
      invariant |r| == |row|
      invariant forall j | 0 <= j < |row| :: r[j] == if from <= j < entry then Ratio(row[j], d) else row[j]
    {
      r := r[entry := Ratio(r[entry], d)];
    }
    assert forall j | 0 <= j < from :: Ratio(row[j], d) == 0.0;
  }

  /** Subtracts only from the pivot column on: before it the pivot row is zero. */
  method SubtractFrom(row: seq<real>, from: nat, size: nat, factor: real, pivot: seq<real>) returns (r: seq<real>)
    requires from <= size <= |row| && size <= |pivot|
    requires forall j | 0 <= j < from :: pivot[j] == 0.0
    ensures r == SubtractRow(row, size, factor, pivot)
  {
    r := row;
    for entry := from to size
      invariant |r| == |row|
      invariant forall j | 0 <= j < |row| :: r[j] == if from <= j < entry then Reduced(row[j], factor, pivot[j]) else row[j]
    {
      r := r[entry := Reduced(r[entry], factor, pivot[entry])];
    }
    assert forall j | 0 <= j < from :: Reduced(row[j], factor, pivot[j]) == row[j];
  }

  lemma ClearOneMore(m: seq<seq<real>>, r: seq<real>, column: nat, k: nat)
    requires Square(m) && |r| == |m| && column < |m| && k < |m|
    ensures ClearRows(m, column, k)[k] == m[k] && ClearRows(m, column, k)[column] == m[column]
    ensures ClearRight(m, r, column, k)[k] == r[k] && ClearRight(m, r, column, k)[column] == r[column]
    ensures ClearRows(m, column, k + 1) ==
            if k == column then ClearRows(m, column, k)
            else ClearRows(m, column, k)[k := SubtractRow(m[k], |m|, m[k][column], m[column])]
    ensures ClearRight(m, r, column, k + 1) ==
            if k == column then ClearRight(m, r, column, k)
            else ClearRight(m, r, column, k)[k := Reduced(r[k], m[k][column], r[column])]
  {
  }

  lemma ClearNothing(m: seq<seq<real>>, r: seq<real>, column: nat, k: nat)
    requires Square(m) && |r| == |m| && column < |m| && k < |m| && m[k][column] == 0.0
    ensures ClearRows(m, column, k + 1) == ClearRows(m, column, k)
    ensures ClearRight(m, r, column, k + 1) == ClearRight(m, r, column, k)
  {
    SubtractNothing(m[k], |m|, m[column]);
    ReducedByNothing(r[k], r[column]);
    ClearOneMore(m, r, column, k);
  }

  lemma ReducedByNothing(a: real, b: real)
    ensures Reduced(a, 0.0, b) == a
  {
  }

  lemma SubtractNothing(row: seq<real>, n: nat, pivot: seq<real>)
    requires n <= |row| && n <= |pivot|
    ensures SubtractRow(row, n, 0.0, pivot) == row
  {
    forall j | 0 <= j < n ensures Reduced(row[j], 0.0, pivot[j]) == row[j] { ReducedByNothing(row[j], pivot[j]); }
  }

  /** Clears `column` in every row but the pivot row. */
  method ClearColumn(matrix: array<seq<real>>, right: array<real>, size: nat, column: nat)
    requires column < size <= matrix.Length && size <= right.Length && Square(matrix[..size])
    requires forall j | 0 <= j < column :: matrix[column][j] == 0.0
    modifies matrix, right
    ensures matrix[..size] == ClearRows(old(matrix[..size]), column, size)
    ensures right[..size] == ClearRight(old(matrix[..size]), old(right[..size]), column, size)
  {
    ghost var m, r := matrix[..size], right[..size];
    for row := 0 to size
      invariant matrix[..size] == ClearRows(m, column, row)
      invariant right[..size] == ClearRight(m, r, column, row)
    {
      ClearOneMore(m, r, column, row);
      assert matrix[row] == matrix[..size][row] && matrix[column] == matrix[..size][column];
      assert right[row] == right[..size][row] && right[column] == right[..size][column];
      if row != column {
        var factor := matrix[row][column];
        if factor != 0.0 {
          ClearRow(matrix, right, size, column, row, factor);
        } else {
          ClearNothing(m, r, column, row);
        }
      }
    }
  }

  method ClearRow(matrix: array<seq<real>>, right: array<real>, size: nat, column: nat, row: nat, factor: real)
    requires column < size <= matrix.Length && row < size <= right.Length
    requires |matrix[row]| >= size && |matrix[column]| >= size
    requires forall j | 0 <= j < column :: matrix[column][j] == 0.0
    modifies matrix, right
    ensures matrix[..size] == old(matrix[..size])[row := SubtractRow(old(matrix[row]), size, factor, old(matrix[column]))]
    ensures right[..size] == old(right[..size])[row := Reduced(old(right[row]), factor, old(right[column]))]
  {
    var cleared := SubtractFrom(matrix[row], column, size, factor, matrix[column]);
    matrix[row] := cleared;
    right[row] := Reduced(right[row], factor, right[column]);
  }

  method SwapRows(matrix: array<seq<real>>, right: array<real>, size: nat, i: nat, j: nat)
    requires i < size <= matrix.Length && j < size <= right.Length
    modifies matrix, right
    ensures matrix[..size] == Swap(old(matrix[..size]), i, j)
    ensures right[..size] == Swap(old(right[..size]), i, j)
  {
    if i != j {
      matrix[i], matrix[j] := matrix[j], matrix[i];
      right[i], right[j] := right[j], right[i];
    }
  }

  /** Scales the pivot row so that its diagonal entry becomes one. */
  method DividePivotRow(matrix: array<seq<real>>, right: array<real>, size: nat, column: nat)
    requires column < size <= matrix.Length && size <= right.Length
    requires |matrix[column]| >= size && matrix[column][column] != 0.0
    requires forall j | 0 <= j < column :: matrix[column][j] == 0.0
    modifies matrix, right
    ensures matrix[..size] == old(matrix[..size])[column := DivideRow(old(matrix[column]), size, old(matrix[column][column]))]
    ensures right[..size] == old(right[..size])[column := Ratio(old(right[column]), old(matrix[column][column]))]
  {
    var diagonal := matrix[column][column];
    var divided := DivideFrom(matrix[column], column, size, diagonal);
    matrix[column] := divided;
    right[column] := Ratio(right[column], diagonal);
  }

  /** One column of the elimination, without looking at entries left of it. */
  method EliminateColumn(matrix: array<seq<real>>, right: array<real>, size: nat, column: nat, pivot: nat)
    requires column <= pivot < size <= matrix.Length && size <= right.Length
    requires Square(matrix[..size]) && UnitColumns(matrix[..size], column) && matrix[pivot][column] != 0.0
    modifies matrix, right
    ensures Square(matrix[..size]) && UnitColumns(matrix[..size], column + 1)
    ensures matrix[..size] == StepRows(Swap(old(matrix[..size]), pivot, column), column)
    ensures right[..size] == StepRight(Swap(old(matrix[..size]), pivot, column), Swap(old(right[..size]), pivot, column), column)
  {
    assert forall j | 0 <= j < column :: matrix[..size][pivot][j] == 0.0;
    SwapRows(matrix, right, size, pivot, column);
    ghost var m := matrix[..size];
    assert m[column] == matrix[column];
    assert UnitColumns(m, column);
    DividePivotRow(matrix, right, size, column);
    assert matrix[column] == matrix[..size][column];
    ClearColumn(matrix, right, size, column);
    StepMakesUnit(m, column);
  }

  lemma EliminateStep(m: seq<seq<real>>, r: seq<real>, column: nat, floor: real)
    requires Square(m) && |r| == |m| && column < |m| && floor >= 0.0
    ensures var p := Pivot(m, column, |m|);
            if Abs(m[p][column]) <= floor then Eliminate(m, r, column, floor).None?
            else Eliminate(m, r, column, floor) ==
                 Eliminate(StepRows(Swap(m, p, column), column), StepRight(Swap(m, p, column), Swap(r, p, column), column), column + 1, floor)
  {
  }

  /** One more column: fails exactly where the elimination does, else leaves it to go on. */
  method EliminateNext(matrix: array<seq<real>>, right: array<real>, size: nat, column: nat, floor: real) returns (ok: bool)
    requires column < size <= matrix.Length && size <= right.Length && Square(matrix[..size]) && floor >= 0.0
    requires UnitColumns(matrix[..size], column)
    modifies matrix, right
    ensures !ok ==> Eliminate(old(matrix[..size]), old(right[..size]), column, floor).None?
    ensures ok ==> Square(matrix[..size]) && UnitColumns(matrix[..size], column + 1)
    ensures ok ==> Eliminate(matrix[..size], right[..size], column + 1, floor) ==
                   Eliminate(old(matrix[..size]), old(right[..size]), column, floor)
  {
    EliminateStep(matrix[..size], right[..size], column, floor);
    var pivot := FindPivot(matrix, size, column);
    assert matrix[pivot] == matrix[..size][pivot];
    if Abs(matrix[pivot][column]) <= floor { return false; }
    EliminateColumn(matrix, right, size, column, pivot);
    return true;
  }

  /** Runs the elimination; on success `right` holds the solution. */
  method EliminateAll(matrix: array<seq<real>>, right: array<real>, size: nat, floor: real) returns (ok: bool)
    requires size <= matrix.Length && size <= right.Length && Square(matrix[..size]) && floor >= 0.0
    modifies matrix, right
    ensures ok == Eliminate(old(matrix[..size]), old(right[..size]), 0, floor).Some?
    ensures ok ==> right[..size] == Eliminate(old(matrix[..size]), old(right[..size]), 0, floor).value
  {
    ghost var m, r := matrix[..size], right[..size];
    ghost var answer := Eliminate(m, r, 0, floor);
    for column := 0 to size
      invariant matrix[..size] == m && right[..size] == r
      invariant Square(m) && UnitColumns(m, column) && Eliminate(m, r, column, floor) == answer
    {
      var more := EliminateNext(matrix, right, size, column, floor);
      if !more { return false; }
      m, r := matrix[..size], right[..size];
    }
    return true;
  }

  method CopyOut(right: array<real>, size: nat, solution: array<real>)
    requires size <= right.Length && size <= solution.Length && right != solution
    modifies solution
    ensures solution[..size] == right[..size]
  {
    for index := 0 to size
      invariant solution[..index] == right[..index]
    {
      solution[index] := right[index];
    }
  }

  /** Solves in place; a true answer carries the one solution of the original system. */
  method SolveLinear(matrix: array<seq<real>>, right: array<real>, size: nat, solution: array<real>) returns (ok: bool)
    requires size <= matrix.Length && size <= right.Length && size <= solution.Length
    requires right != solution && Square(matrix[..size])
    modifies matrix, right, solution
    ensures ok == Solve(old(matrix[..size]), old(right[..size])).Some?
    ensures ok ==> solution[..size] == Solve(old(matrix[..size]), old(right[..size])).value
    ensures ok ==> Solves(old(matrix[..size]), old(right[..size]), solution[..size])
    ensures !ok ==> solution[..] == old(solution[..])
  {
    ghost var m, r := matrix[..size], right[..size];
    var largest := FindLargest(matrix, size);
    if !(largest > 0.0) { return false; }
    ok := EliminateAll(matrix, right, size, largest * TOLERANCE);
    if ok {
      CopyOut(right, size, solution);
      SolveIsUnique(m, r);
    }
  }
}

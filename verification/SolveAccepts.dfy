/** When the elimination accepts a system: what a refusal means for the matrix it refused. */
module SolveAccepts {
  import opened Wrappers
  import opened LinearSolve

  // ----- the largest magnitude and the pivot -----

  lemma {:induction false} RowMaxBounds(row: seq<real>, n: nat, from: real, j: nat)
    requires n <= |row|
    ensures RowMax(row, n, from) >= from && (j < n ==> Abs(row[j]) <= RowMax(row, n, from))
  {
    if n > 0 { RowMaxBounds(row, n - 1, from, j); }
  }

  lemma {:induction false} RowMaxAttained(row: seq<real>, n: nat, from: real)
    requires n <= |row|
    ensures RowMax(row, n, from) == from || exists j | 0 <= j < n :: RowMax(row, n, from) == Abs(row[j])
  {
    if n > 0 { RowMaxAttained(row, n - 1, from); }
  }

  /** No entry of the first `k` rows is larger than the largest magnitude. */
  lemma {:induction false} LargestBounds(m: seq<seq<real>>, k: nat, i: nat, j: nat)
    requires Square(m) && k <= |m| && j < |m|
    ensures Largest(m, k) >= 0.0 && (i < k ==> Abs(m[i][j]) <= Largest(m, k))
  {
    if k > 0 {
      LargestBounds(m, k - 1, i, j);
      RowMaxBounds(m[k - 1], |m|, Largest(m, k - 1), j);
    }
  }

  ghost predicate IsEntry(m: seq<seq<real>>, i: nat, j: nat, a: real)
    requires Square(m)
  {
    i < |m| && j < |m| && a == Abs(m[i][j])
  }

  /** And it is the magnitude of an entry. */
  lemma {:induction false} LargestAttained(m: seq<seq<real>>, k: nat)
    requires Square(m) && 0 < k <= |m|
    ensures exists i: nat, j: nat :: i < k && IsEntry(m, i, j, Largest(m, k))
  {
    RowMaxAttained(m[k - 1], |m|, Largest(m, k - 1));
    if Largest(m, k) != Largest(m, k - 1) {
      var j :| 0 <= j < |m| && Largest(m, k) == Abs(m[k - 1][j]);
      assert IsEntry(m, k - 1, j, Largest(m, k));
    } else if k > 1 {
      LargestAttained(m, k - 1);
    } else {
      LargestBounds(m, k, 0, 0);
      assert IsEntry(m, 0, 0, Largest(m, k));
    }
  }

  /** The pivot row is the first with the greatest magnitude from the diagonal down. */
  lemma {:induction false} PivotIsLargest(m: seq<seq<real>>, column: nat, upto: nat, i: nat)
    requires Square(m) && column <= i < upto <= |m|
    ensures var p := Pivot(m, column, upto);
            Abs(m[i][column]) <= Abs(m[p][column]) && (i < p ==> Abs(m[i][column]) < Abs(m[p][column]))
    decreases upto
  {
    if i < upto - 1 {
      PivotIsLargest(m, column, upto - 1, i);
    } else if column < i {
      PivotIsLargest(m, column, upto - 1, column);
    }
  }

  // ----- a refusal gives a vector that the matrix nearly maps to zero -----

  predicate Within(a: real, floor: real) { -floor <= a <= floor }

  /** One in place `c` and zero behind. */
  predicate LeadsAt(x: seq<real>, c: nat) { c < |x| && x[c] == 1.0 && forall j | c < j < |x| :: x[j] == 0.0 }

  ghost predicate NearlyKills(m: seq<seq<real>>, floor: real, x: seq<real>)
    requires Square(m) && |x| == |m|
  {
    forall i | 0 <= i < |m| :: Within(Dot(m[i], x), floor)
  }

  lemma {:induction false} DotZeroTail(row: seq<real>, x: seq<real>, k: nat)
    requires k <= |x| <= |row| && forall j | k <= j < |x| :: x[j] == 0.0
    ensures Dot(row, x) == Dot(row, x[..k])
    decreases |x|
  {
    if k < |x| {
      DotZeroTail(row, x[..|x| - 1], k);
      assert x[..|x| - 1][..k] == x[..k];
    } else {
      assert x[..k] == x;
    }
  }

  /** What a row makes of such a vector when the columns before are those of the identity. */
  lemma DotLeading(row: seq<real>, x: seq<real>, c: nat, i: nat)
    requires |x| <= |row| && LeadsAt(x, c) && forall j | 0 <= j < c :: row[j] == if i == j then 1.0 else 0.0
    ensures Dot(row, x) == (if i < c then x[i] else 0.0) + row[c]
  {
    DotZeroTail(row, x, c + 1);
    assert x[..c + 1][..c] == x[..c];
    DotUnit(row, x[..c], i);
  }

  /** The vector at the column where the pivot is too small. */
  function Stuck(m: seq<seq<real>>, column: nat): (x: seq<real>)
    requires column < |m| && forall i | 0 <= i < |m| :: |m[i]| >= |m|
    ensures |x| == |m| && LeadsAt(x, column)
  {
    seq(|m|, j requires 0 <= j < |m| => if j < column then -m[j][column] else if j == column then 1.0 else 0.0)
  }

  lemma StuckIsWitness(m: seq<seq<real>>, column: nat, floor: real)
    requires Square(m) && column < |m| && UnitColumns(m, column) && floor >= 0.0
    requires Abs(m[Pivot(m, column, |m|)][column]) <= floor
    ensures NearlyKills(m, floor, Stuck(m, column))
    ensures forall i | 0 <= i < column :: Dot(m[i], Stuck(m, column)) == 0.0
  {
    var x := Stuck(m, column);
    forall i | 0 <= i < |m| ensures Dot(m[i], x) == if i < column then 0.0 else m[i][column] {
      DotLeading(m[i], x, column, i);
    }
    forall i | column <= i < |m| ensures Within(m[i][column], floor) { PivotIsLargest(m, column, |m|, i); }
  }

  /** A row operation step changes nothing about a vector that the pivot row kills. */
  lemma StepSees(m: seq<seq<real>>, c: nat, x: seq<real>, i: nat)
    requires Square(m) && |x| == |m| && c < |m| && m[c][c] != 0.0 && i < |m|
    requires Square(StepRows(m, c)) && Dot(StepRows(m, c)[c], x) == 0.0
    ensures Dot(m[i], x) == Dot(StepRows(m, c)[i], x)
  {
    var d := m[c][c];
    var pivot := DivideRow(m[c], |m|, d);
    DotDivide(m[c], |m|, d, x);
    ZeroNumerator(Dot(m[c], x), d);
    if i != c { DotSubtract(m[i], |m|, m[i][c], pivot, x); }
  }

  lemma ZeroNumerator(a: real, d: real)
    requires d != 0.0 && a / d == 0.0
    ensures a == 0.0
  {
    assert a == a / d * d;
  }

  /** The rows up to `k` map the vector to zero, and all of them within the floor. */
  ghost predicate KillsTo(m: seq<seq<real>>, k: nat, floor: real, x: seq<real>)
    requires Square(m) && |x| == |m| && k <= |m|
  {
    NearlyKills(m, floor, x) && forall i | 0 <= i < k :: Dot(m[i], x) == 0.0
  }

  lemma BeforeStep(m: seq<seq<real>>, c: nat, x: seq<real>, floor: real)
    requires Square(m) && |x| == |m| && c < |m| && m[c][c] != 0.0 && Square(StepRows(m, c))
    requires KillsTo(StepRows(m, c), c + 1, floor, x)
    ensures KillsTo(m, c, floor, x)
  {
    var next := StepRows(m, c);
    forall i | 0 <= i < |m| ensures Dot(m[i], x) == Dot(next[i], x) { StepSees(m, c, x, i); }
  }

  lemma BeforeSwap(m: seq<seq<real>>, p: nat, c: nat, x: seq<real>, floor: real)
    requires Square(m) && |x| == |m| && c <= p < |m| && Square(Swap(m, p, c)) && KillsTo(Swap(m, p, c), c, floor, x)
    ensures KillsTo(m, c, floor, x)
  {
    var m' := Swap(m, p, c);
    forall i | 0 <= i < |m| ensures Within(Dot(m[i], x), floor) && (i < c ==> Dot(m[i], x) == 0.0) {
      var k := if i == p then c else if i == c then p else i;
      assert m'[k] == m[i];
    }
  }

  /** One step of an elimination that will be refused later. */
  lemma RefusedNext(m: seq<seq<real>>, r: seq<real>, c: nat, floor: real) returns (next: seq<seq<real>>, right: seq<real>)
    requires Square(m) && |r| == |m| && c < |m| && floor >= 0.0 && UnitColumns(m, c)
    requires Eliminate(m, r, c, floor).None? && Abs(m[Pivot(m, c, |m|)][c]) > floor
    ensures Square(next) && |right| == |next| == |m| && UnitColumns(next, c + 1) && Eliminate(next, right, c + 1, floor).None?
    ensures forall x: seq<real> | |x| == |m| && KillsTo(next, c + 1, floor, x) :: KillsTo(m, c, floor, x)
  {
    var p := Pivot(m, c, |m|);
    var m' := Swap(m, p, c);
    EliminateStep(m, r, c, floor);
    StepMakesUnit(m', c);
    next, right := StepRows(m', c), StepRight(m', Swap(r, p, c), c);
    forall x: seq<real> | |x| == |m| && KillsTo(next, c + 1, floor, x) ensures KillsTo(m, c, floor, x) {
      BeforeStep(m', c, x, floor);
      BeforeSwap(m, p, c, x, floor);
    }
  }

  /** A refusal under any floor gives a vector, one in some place and zero behind it, that every row
      of the matrix maps within the floor. */
  lemma {:induction false} RefusalWitness(m: seq<seq<real>>, r: seq<real>, column: nat, floor: real)
    returns (c: nat, x: seq<real>)
    requires Square(m) && |r| == |m| && column <= |m| && floor >= 0.0 && UnitColumns(m, column)
    requires Eliminate(m, r, column, floor).None?
    ensures |x| == |m| && LeadsAt(x, c) && KillsTo(m, column, floor, x)
    decreases |m| - column
  {
    if Abs(m[Pivot(m, column, |m|)][column]) <= floor {
      c, x := column, Stuck(m, column);
      StuckIsWitness(m, column, floor);
    } else {
      var next, right := RefusedNext(m, r, column, floor);
      c, x := RefusalWitness(next, right, column + 1, floor);
    }
  }

  /** So a system that the solver refuses has a vector, one in some place and zero behind it, that
      the matrix maps below the tolerance times its largest entry. */
  lemma SolveRefused(m: seq<seq<real>>, r: seq<real>) returns (c: nat, x: seq<real>)
    requires Square(m) && |r| == |m| > 0 && Solve(m, r).None?
    ensures |x| == |m| && LeadsAt(x, c) && NearlyKills(m, Largest(m, |m|) * TOLERANCE, x)
  {
    LargestBounds(m, |m|, 0, 0);
    if Largest(m, |m|) > 0.0 {
      c, x := RefusalWitness(m, r, 0, Largest(m, |m|) * TOLERANCE);
    } else {
      c, x := 0, Stuck(m, 0);
      forall i | 0 <= i < |m| ensures Dot(m[i], x) == 0.0 {
        DotLeading(m[i], x, 0, i);
        LargestBounds(m, |m|, i, 0);
      }
    }
  }

  // ----- without a tolerance: exactly the nonsingular matrices -----

  /** Some vector other than zero is mapped to zero. */
  ghost predicate Singular(m: seq<seq<real>>)
    requires Square(m)
  {
    exists x: seq<real> :: Killed(m, x)
  }

  ghost predicate Killed(m: seq<seq<real>>, x: seq<real>)
    requires Square(m)
  {
    |x| == |m| && NearlyKills(m, 0.0, x) && exists c | 0 <= c < |x| :: x[c] != 0.0
  }

  /** Whether a system is accepted does not depend on its right-hand side. */
  lemma {:induction false} SameAcceptance(m: seq<seq<real>>, r: seq<real>, s: seq<real>, c: nat, floor: real)
    requires Square(m) && |r| == |m| == |s| && c <= |m| && floor >= 0.0 && UnitColumns(m, c)
    ensures Eliminate(m, r, c, floor).Some? <==> Eliminate(m, s, c, floor).Some?
    decreases |m| - c
  {
    if c < |m| {
      var p := Pivot(m, c, |m|);
      if Abs(m[p][c]) > floor {
        var m' := Swap(m, p, c);
        StepMakesUnit(m', c);
        SameAcceptance(StepRows(m', c), StepRight(m', Swap(r, p, c), c), StepRight(m', Swap(s, p, c), c), c + 1, floor);
      }
    }
  }

  function Nothing(n: nat): seq<real> { seq(n, _ => 0.0) }

  lemma {:induction false} DotNothing(row: seq<real>, n: nat)
    requires n <= |row|
    ensures Dot(row, Nothing(n)) == 0.0
  {
    if n > 0 {
      assert Nothing(n)[..n - 1] == Nothing(n - 1);
      DotNothing(row, n - 1);
    }
  }

  lemma AcceptedKillsNothing(m: seq<seq<real>>, r: seq<real>, floor: real, x: seq<real>)
    requires Square(m) && |r| == |m| == |x| && floor >= 0.0 && Eliminate(m, r, 0, floor).Some?
    requires NearlyKills(m, 0.0, x)
    ensures x == Nothing(|m|)
  {
    var zero := Nothing(|m|);
    SameAcceptance(m, r, zero, 0, floor);
    forall i | 0 <= i < |m| ensures Dot(m[i], zero) == 0.0 && Dot(m[i], x) == 0.0 {
      DotNothing(m[i], |m|);
      assert Within(Dot(m[i], x), 0.0);
    }
    EliminateSolves(m, zero, 0, floor, zero);
    EliminateSolves(m, zero, 0, floor, x);
  }

  /** With a floor of zero the elimination succeeds if and only if the matrix is not singular, and
      under any floor what it accepts is not singular. */
  lemma AcceptedIff(m: seq<seq<real>>, r: seq<real>, floor: real)
    requires Square(m) && |r| == |m| && floor >= 0.0
    ensures Eliminate(m, r, 0, 0.0).Some? <==> !Singular(m)
    ensures Eliminate(m, r, 0, floor).Some? ==> !Singular(m)
  {
    if Singular(m) {
      var x :| Killed(m, x);
      if Eliminate(m, r, 0, 0.0).Some? { AcceptedKillsNothing(m, r, 0.0, x); }
      if Eliminate(m, r, 0, floor).Some? { AcceptedKillsNothing(m, r, floor, x); }
    } else if Eliminate(m, r, 0, 0.0).None? {
      var c, x := RefusalWitness(m, r, 0, 0.0);
      assert Killed(m, x);
    }
  }
}

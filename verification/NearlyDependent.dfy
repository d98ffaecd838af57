/** Where the fit misses the optimum: two columns that are independent, but so nearly alike that
    the solver's pivot tolerance rejects the subset that holds both. */
module NearlyDependent {
  import opened Powers
  import opened Wrappers
  import opened LinearSolve
  import opened NonnegativeFit
  import opened FitOptimum

  const D := 0.9999999

  const FIRST := Point([1.0, D, 0.0, 0.0, 0.0], 1.0, false)
  const SECOND := Point([D, 1.0, 0.0, 0.0, 0.0], 1.0, false)
  const CLOSE: seq<Point> := [FIRST, SECOND]
  const ONES: seq<real> := [1.0, 1.0]

  lemma OneMorePoint(ps: seq<Point>, p: Point, more: seq<Point>)
    requires Shaped(ps) && Shaped(more) && more == ps + [p] && |p.features| == MAX_COEFFICIENTS
    requires FirstError(ps, 2).None? && PointError(p, 2).None?
    ensures FirstError(more, 2).None?
    ensures forall c: nat | c < 2 :: Scale(more, c) == Max(Scale(ps, c), p.features[c])
  {
    assert more[..|more| - 1] == ps;
  }

  lemma CloseIsChecked()
    ensures Shaped(CLOSE) && Checked(CLOSE, 2).None? && Scales(CLOSE, 2) == ONES && Ready(CLOSE, ONES)
  {
    OneMorePoint([], FIRST, [FIRST]);
    OneMorePoint([FIRST], SECOND, CLOSE);
    assert Scale([FIRST], 0) == 1.0 && Scale([FIRST], 1) == D;
    assert Scale(CLOSE, 0) == 1.0 && Scale(CLOSE, 1) == 1.0;
  }

  // ----- the subset of both columns is rejected -----

  lemma {:induction false} BothColumns()
    ensures Active(3, 2) == [0, 1]
  {
    assert Active(3, 1) == [0];
  }

  lemma CloseRows()
    requires Ready(CLOSE, ONES)
    ensures Rows(CLOSE, ONES, [0, 1]) == [[1.0, D], [D, 1.0]]
  {
    assert Row(FIRST, ONES, [0, 1]) == [1.0, D];
    assert Row(SECOND, ONES, [0, 1]) == [D, 1.0];
  }

  lemma CloseNormal(d: real)
    ensures var m := Normal([[1.0, d], [d, 1.0]], 2);
            && m[0][0] == 1.0 + d * d && m[1][1] == 1.0 + d * d && m[0][1] == 2.0 * d && m[1][0] == 2.0 * d
  {
    var r1, r2 := [1.0, d], [d, 1.0];
    var rows, zeros := [r1, r2], seq(2, _ => Zeros(MAX_COEFFICIENTS));
    assert rows[..1] == [r1] && [r1][..0] == [];
    assert Normal([], 2) == zeros;
    var one := AddOuter(zeros, r1);
    assert Normal([r1], 2) == one;
    assert Normal(rows, 2) == AddOuter(one, r2);
  }

  /** What is left of a symmetric pair of equations after the first column is too small. */
  lemma SecondPivotRejected(m: seq<seq<real>>, r: seq<real>, a: real, b: real)
    requires RowsOf(m, 2) && |r| == 2 && a > b > 0.0
    requires m[0][0] == a && m[1][1] == a && m[0][1] == b && m[1][0] == b
    requires -(a * TOLERANCE) <= a - Times(b, Ratio(b, a)) <= a * TOLERANCE
    ensures Solve(m, r).None?
  {
    LargestOfPair(m, a, b);
    assert a * TOLERANCE < a;
    assert Pivot(m, 0, 1) == 0 && Pivot(m, 0, 2) == 0;
    assert Swap(m, 0, 0) == m && Swap(r, 0, 0) == r;
    EliminateStep(m, r, 0, a * TOLERANCE);
    var next, right := StepRows(m, 0), StepRight(m, r, 0);
    assert next[1][1] == Reduced(a, b, Ratio(b, a));
    assert Pivot(next, 1, 2) == 1;
    EliminateStep(next, right, 1, a * TOLERANCE);
  }

  lemma LargestOfPair(m: seq<seq<real>>, a: real, b: real)
    requires RowsOf(m, 2) && a > b > 0.0
    requires m[0][0] == a && m[1][1] == a && m[0][1] == b && m[1][0] == b
    ensures Largest(m, 2) == a
  {
    assert Largest(m, 0) == 0.0;
    assert RowMax(m[0], 1, 0.0) == a && RowMax(m[0], 2, 0.0) == a;
    assert Largest(m, 1) == a;
    assert RowMax(m[1], 0, a) == a && RowMax(m[1], 1, a) == a && RowMax(m[1], 2, a) == a;
  }

  lemma TooClose()
    ensures var a, b := 1.0 + D * D, 2.0 * D;
            a > b > 0.0 && -(a * TOLERANCE) <= a - Times(b, Ratio(b, a)) <= a * TOLERANCE
  {
  }

  lemma BothAreRejected()
    requires Ready(CLOSE, ONES)
    ensures LocalSolution(CLOSE, ONES, Active(3, 2)).None?
  {
    BothColumns();
    CloseRows();
    CloseNormal(D);
    TooClose();
    var rows := [[1.0, D], [D, 1.0]];
    SecondPivotRejected(Normal(rows, 2), RightSide(rows, 2), 1.0 + D * D, 2.0 * D);
  }

  // ----- and no single column does as well -----

  lemma DotOfTwo(a: real, b: real, rest: seq<real>, x: seq<real>)
    requires |x| == 2
    ensures Dot([a, b] + rest, x) == a * x[0] + b * x[1]
  {
    assert x[..1] == [x[0]] && x[..1][..0] == [];
    assert Dot([a, b] + rest, x[..1]) == 0.0 + Times(a, x[0]);
  }

  lemma ErrorOfTwo(x: seq<real>)
    requires |x| == 2 && Ready(CLOSE, ONES)
    ensures FitError(CLOSE, x) == Squared(x[0] + D * x[1] - 1.0) + Squared(D * x[0] + x[1] - 1.0)
  {
    var rest := [0.0, 0.0, 0.0];
    DotOfTwo(1.0, D, rest, x);
    DotOfTwo(D, 1.0, rest, x);
    assert FIRST.features == [1.0, D] + rest && SECOND.features == [D, 1.0] + rest;
    assert Relative(FIRST, x) == x[0] + D * x[1] - 1.0 && Relative(SECOND, x) == D * x[0] + x[1] - 1.0;
    assert CLOSE[..1] == [FIRST] && [FIRST][..0] == [];
    assert FitError([FIRST], x) == 0.0 + Squared(Relative(FIRST, x));
  }

  lemma SquareOfNonzero(a: real)
    requires a != 0.0
    ensures Squared(a) > 0.0
  {
    if a > 0.0 { ProductPositive(a, a); } else { ProductPositive(-a, -a); assert a * a == (-a) * (-a); }
  }

  lemma OneColumnMisses(x: seq<real>)
    requires |x| == 2 && Ready(CLOSE, ONES) && (x[0] == 0.0 || x[1] == 0.0)
    ensures FitError(CLOSE, x) > 0.0
  {
    var u, v := x[0] + D * x[1] - 1.0, D * x[0] + x[1] - 1.0;
    ErrorOfTwo(x);
    SquareSign(u);
    SquareSign(v);
    if u != 0.0 { SquareOfNonzero(u); } else { SquareOfNonzero(v); }
  }

  lemma CandidateSupported(ps: seq<Point>, scales: seq<real>, mask: nat, best: seq<real>)
    requires Ready(ps, scales) && Candidate(ps, scales, mask) == Some(best)
    ensures Supported(best, mask) && LocalSolution(ps, scales, Active(mask, |scales|)).Some?
  {
    var sol := LocalSolution(ps, scales, Active(mask, |scales|)).value;
    PlacedIsLocal(Clamped(sol), scales, mask);
  }

  lemma BestHasMask(ps: seq<Point>, scales: seq<real>, limit: nat, best: seq<real>) returns (mask: nat)
    requires Ready(ps, scales) && limit >= 1 && BestOf(ps, Candidates(ps, scales, limit), |scales|, Some(best))
    ensures 1 <= mask < limit && Candidate(ps, scales, mask) == Some(best)
  {
    var cands := Candidates(ps, scales, limit);
    var k: nat :| FirstBest(ps, cands, |scales|, k) && cands[k] == Some(best);
    mask := k + 1;
    CandidateAt(ps, scales, limit, mask);
  }

  const HALF := 1.0 / (1.0 + D)

  lemma HalvesFit()
    requires Ready(CLOSE, ONES)
    ensures FitError(CLOSE, [HALF, HALF]) == 0.0
  {
    ErrorOfTwo([HALF, HALF]);
  }

  lemma OneBitMissing(x: seq<real>, mask: nat)
    requires |x| == 2 && Supported(x, mask) && 1 <= mask <= 2
    ensures x[0] == 0.0 || x[1] == 0.0
  {
    assert mask == 1 ==> !Bit(mask, 1);
    assert mask == 2 ==> !Bit(mask, 0);
  }

  lemma NotBoth(ps: seq<Point>, scales: seq<real>, best: seq<real>)
    requires Ready(ps, scales) && |scales| == 2 && LocalSolution(ps, scales, Active(3, 2)).None?
    requires BestOf(ps, Candidates(ps, scales, 4), 2, Some(best))
    ensures |best| == 2 && (best[0] == 0.0 || best[1] == 0.0)
  {
    var mask := BestHasMask(ps, scales, 4, best);
    CandidateSupported(ps, scales, mask, best);
    OneBitMissing(best, mask);
  }

  lemma Missed(ps: seq<Point>, columns: nat, scales: seq<real>, best: seq<real>, x: seq<real>)
    requires Shaped(ps) && 0 < columns <= MAX_COEFFICIENTS && Checked(ps, columns).None?
    requires scales == Scales(ps, columns) && Ready(ps, scales)
    requires BestOf(ps, Candidates(ps, scales, Pow2(columns)), columns, Some(best))
    requires |x| == columns && Nonnegative(x) && FitError(ps, x) < FitError(ps, best)
    ensures !AllResolved(ps, scales)
  {
    if AllResolved(ps, scales) { FitIsGlobalOptimum(ps, columns, best, x); }
  }

  /** Points of two columns that fit without error, but not without both columns, and the subset
      of both is rejected. */
  ghost predicate NeedsBoth(ps: seq<Point>, scales: seq<real>, x: seq<real>) {
    && Shaped(ps) && Ready(ps, scales) && Checked(ps, 2).None? && scales == Scales(ps, 2)
    && LocalSolution(ps, scales, Active(3, 2)).None?
    && |x| == 2 && Nonnegative(x) && FitError(ps, x) == 0.0
    && forall y: seq<real> | |y| == 2 && (y[0] == 0.0 || y[1] == 0.0) :: FitError(ps, y) > 0.0
  }

  lemma CloseNeedsBoth()
    ensures NeedsBoth(CLOSE, ONES, [HALF, HALF])
  {
    CloseIsChecked();
    HalvesFit();
    BothAreRejected();
    forall y: seq<real> | |y| == 2 && (y[0] == 0.0 || y[1] == 0.0) ensures FitError(CLOSE, y) > 0.0 {
      OneColumnMisses(y);
    }
  }

  lemma MissedByFit(ps: seq<Point>, scales: seq<real>, x: seq<real>, best: seq<real>)
    requires NeedsBoth(ps, scales, x) && BestOf(ps, Candidates(ps, scales, Pow2(2)), 2, Some(best))
    ensures FitError(ps, best) > 0.0 && !AllResolved(ps, scales)
  {
    assert Pow2(2) == 4;
    NotBoth(ps, scales, best);
    Missed(ps, 2, scales, best, x);
  }

  /** Both columns together, in equal parts, fit without error; the fit does not find that. */
  lemma FitMissesOptimum(best: seq<real>)
    requires Ready(CLOSE, ONES) && BestOf(CLOSE, Candidates(CLOSE, ONES, Pow2(2)), 2, Some(best))
    ensures NeedsBoth(CLOSE, ONES, [HALF, HALF])
    ensures FitError(CLOSE, best) > 0.0 && !AllResolved(CLOSE, ONES)
  {
    CloseNeedsBoth();
    MissedByFit(CLOSE, ONES, [HALF, HALF], best);
  }
}

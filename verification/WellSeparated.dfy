/** Points on which the fit must combine two columns, and does. */
module WellSeparated {
  import opened Powers
  import opened Wrappers
  import opened LinearSolve
  import opened NonnegativeFit
  import opened FitOptimum
  import opened FitAccepts
  import N = NearlyDependent

  const FIRST := Point([1.0, 0.0, 0.0, 0.0, 0.0], 1.0, false)
  const SECOND := Point([1.0, 1.0, 0.0, 0.0, 0.0], 3.0, false)
  const APART: seq<Point> := [FIRST, SECOND]
  const ONES: seq<real> := [1.0, 1.0]

  lemma ApartIsChecked()
    ensures Shaped(APART) && Checked(APART, 2).None? && Scales(APART, 2) == ONES && Ready(APART, ONES)
  {
    N.OneMorePoint([], FIRST, [FIRST]);
    N.OneMorePoint([FIRST], SECOND, APART);
    assert Scale([FIRST], 0) == 1.0 && Scale([FIRST], 1) == 0.0;
    assert Scale(APART, 0) == 1.0 && Scale(APART, 1) == 1.0;
  }

  lemma Products(x: seq<real>)
    requires |x| == 2
    ensures Dot(FIRST.features, x) == x[0] && Dot(SECOND.features, x) == x[0] + x[1]
  {
    var rest := [0.0, 0.0, 0.0];
    N.DotOfTwo(1.0, 0.0, rest, x);
    N.DotOfTwo(1.0, 1.0, rest, x);
    assert FIRST.features == [1.0, 0.0] + rest && SECOND.features == [1.0, 1.0] + rest;
  }

  lemma StrengthOfTwo(k: seq<real>)
    requires |k| == 2 && Ready(APART, ONES)
    ensures Strength(APART, k) == Squared(k[0]) + Squared((k[0] + k[1]) / 3.0)
    ensures Weight(APART) == 10.0 / 9.0
  {
    Products(k);
    assert APART[..1] == [FIRST] && [FIRST][..0] == [];
    assert Strength([FIRST], k) == 0.0 + Squared(Ratio(k[0], 1.0));
    assert Weight([FIRST]) == 0.0 + Squared(Ratio(1.0, 1.0));
  }

  lemma ReachOfTwo(k: seq<real>)
    requires |k| == 2
    ensures Reach(k, ONES) == Max(Abs(k[0]), Abs(k[1]))
  {
    var s := seq(|k|, c requires 0 <= c < |k| => Times(k[c], ONES[c]));
    assert s == k;
    assert k[..1] == [k[0]] && [k[0]][..0] == [];
    assert MaxAbs([k[0]]) == Max(0.0, Abs(k[0]));
  }

  /** What two coefficients predict is never small against the larger of them. */
  lemma NoCancelling(a: real, b: real)
    requires a != 0.0 || b != 0.0
    ensures Squared(a) + Squared((a + b) / 3.0) > 0.01 * Squared(Max(Abs(a), Abs(b)))
  {
    var top, c := Max(Abs(a), Abs(b)), (a + b) / 3.0;
    N.SquareOfNonzero(top);
    SquareSign(a);
    SquareSign(c);
    if 2.0 * Abs(a) >= top {
      SquareAtLeast(a, top / 2.0);
      assert Squared(top / 2.0) == Squared(top) / 4.0;
    } else {
      SquareAtLeast(c, top / 6.0);
      assert Squared(top / 6.0) == Squared(top) / 36.0;
    }
  }

  lemma SquareAtLeast(a: real, b: real)
    requires Abs(a) >= b >= 0.0
    ensures Squared(a) >= Squared(b)
  {
    Monotone(b, Abs(a), b, Abs(a));
    assert Times(Abs(a), Abs(a)) == a * a;
  }

  lemma ApartIsSeparated()
    requires Ready(APART, ONES)
    ensures Separated(APART, ONES)
  {
    forall k: seq<real> | |k| == |ONES| && NonZero(k) ensures Strength(APART, k) > Bound(|k|, Weight(APART), Reach(k, ONES)) {
      var c :| 0 <= c < |k| && k[c] != 0.0;
      var top := Max(Abs(k[0]), Abs(k[1]));
      StrengthOfTwo(k);
      ReachOfTwo(k);
      NoCancelling(k[0], k[1]);
      SquareSign(top);
      assert Bound(2, 10.0 / 9.0, top) <= 0.01 * Squared(top);
    }
  }

  lemma ErrorOfTwo(x: seq<real>)
    requires |x| == 2 && Ready(APART, ONES)
    ensures FitError(APART, x) == Squared(x[0] - 1.0) + Squared((x[0] + x[1] - 3.0) / 3.0)
  {
    Products(x);
    assert APART[..1] == [FIRST] && [FIRST][..0] == [];
    assert FitError([FIRST], x) == 0.0 + Squared(Ratio(x[0] - 1.0, 1.0));
  }

  lemma OnlyExact(x: seq<real>)
    requires |x| == 2 && Ready(APART, ONES)
    ensures FitError(APART, x) <= 0.0 <==> x == [1.0, 2.0]
  {
    ErrorOfTwo(x);
    if FitError(APART, x) <= 0.0 { NoErrorLeft(x[0] - 1.0, (x[0] + x[1] - 3.0) / 3.0); }
  }

  lemma ErrorBelow(ps: seq<Point>, columns: nat, scales: seq<real>, best: seq<real>, x: seq<real>)
    requires Shaped(ps) && 0 < columns <= MAX_COEFFICIENTS && Checked(ps, columns).None? && scales == Scales(ps, columns)
    requires Ready(ps, scales) && Separated(ps, scales)
    requires BestOf(ps, Candidates(ps, scales, Pow2(columns)), columns, Some(best))
    requires |x| == columns && Nonnegative(x)
    ensures |best| == columns && FitError(ps, best) <= FitError(ps, x)
  {
    SeparatedFitIsOptimum(ps, columns, best, x);
  }

  /** The fit finds the coefficients that fit without error, which need both columns. */
  lemma FitFindsBoth(best: seq<real>)
    requires Ready(APART, ONES) && BestOf(APART, Candidates(APART, ONES, Pow2(2)), 2, Some(best))
    ensures Checked(APART, 2).None? && Scales(APART, 2) == ONES && best == [1.0, 2.0]
  {
    ApartIsChecked();
    ApartIsSeparated();
    ErrorBelow(APART, 2, ONES, best, [1.0, 2.0]);
    OnlyExact([1.0, 2.0]);
    OnlyExact(best);
  }

  lemma NoErrorLeft(a: real, b: real)
    requires Squared(a) + Squared(b) <= 0.0
    ensures a == 0.0 && b == 0.0
  {
    SquareSign(a);
    SquareSign(b);
    if a != 0.0 { N.SquareOfNonzero(a); }
    if b != 0.0 { N.SquareOfNonzero(b); }
  }
}

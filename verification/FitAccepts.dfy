/** A condition on the training points alone under which the solver accepts every subset of the
    columns, so that the fit is the best of all non-negative coefficients. */
module FitAccepts {
  import opened Powers
  import opened Wrappers
  import opened LinearSolve
  import opened NonnegativeFit
  import opened FitOptimum
  import Accepts = SolveAccepts

  // ----- the normal equations as a quadratic form -----

  /** The sum of what the rows make of a vector, squared. */
  function Energy(rows: seq<seq<real>>, x: seq<real>): real
    requires Width(rows, |x|)
  {
    if rows == [] then 0.0 else Energy(rows[..|rows| - 1], x) + Squared(Dot(rows[|rows| - 1], x))
  }

  function Image(m: seq<seq<real>>, x: seq<real>): (y: seq<real>)
    requires forall i | 0 <= i < |m| :: |x| <= |m[i]|
    ensures |y| == |m|
  {
    seq(|m|, i requires 0 <= i < |m| => Dot(m[i], x))
  }

  lemma ImageOuter(before: seq<seq<real>>, row: seq<real>, x: seq<real>)
    requires |row| == |x| && RowsOf(before, |x|)
    ensures Image(AddOuter(before, row), x) == AddScaled(Image(before, x), Dot(row, x), row)
  {
    var y, z := Image(AddOuter(before, row), x), AddScaled(Image(before, x), Dot(row, x), row);
    forall i | 0 <= i < |x| ensures y[i] == z[i] { ImageAt(before, row, x, i); }
  }

  lemma ImageAt(before: seq<seq<real>>, row: seq<real>, x: seq<real>, i: nat)
    requires |row| == |x| && i < |x| == |before| && forall j | 0 <= j < |before| :: |before[j]| >= |x|
    ensures Dot(AddScaled(before[i], row[i], row), x) == AddScaled(Image(before, x), Dot(row, x), row)[i]
  {
    DotAddScaled(before[i], row[i], row, x);
    AddScaledAt(Image(before, x), Dot(row, x), row, i);
    TimesCommutes(row[i], Dot(row, x));
  }

  lemma TimesCommutes(a: real, b: real)
    ensures Times(a, b) == Times(b, a)
  {
  }

  lemma {:induction false} NormalIsEnergy(rows: seq<seq<real>>, x: seq<real>)
    requires Width(rows, |x|) && |x| <= MAX_COEFFICIENTS
    ensures Dot(Image(Normal(rows, |x|), x), x) == Energy(rows, x)
  {
    var n := |x|;
    if rows == [] {
      forall i | 0 <= i < n ensures Image(Normal(rows, n), x)[i] == 0.0 { DotZeros(Zeros(MAX_COEFFICIENTS), x); }
      DotZeros(Image(Normal(rows, n), x), x);
    } else {
      var k := |rows| - 1;
      NormalIsEnergy(rows[..k], x);
      ImageOuter(Normal(rows[..k], n), rows[k], x);
      DotAddScaled(Image(Normal(rows[..k], n), x), Dot(rows[k], x), rows[k], x);
    }
  }

  // ----- bounds -----

  function MaxAbs(x: seq<real>): real { if x == [] then 0.0 else Max(MaxAbs(x[..|x| - 1]), Abs(x[|x| - 1])) }

  lemma {:induction false} MaxAbsBounds(x: seq<real>, i: nat)
    ensures MaxAbs(x) >= 0.0 && (i < |x| ==> Abs(x[i]) <= MaxAbs(x))
  {
    if x != [] { MaxAbsBounds(x[..|x| - 1], i); }
  }

  lemma ProductBound(a: real, x: real, floor: real, top: real)
    requires Accepts.Within(a, floor) && Abs(x) <= top
    ensures Times(a, x) <= Times(floor, top)
  {
    Monotone(Abs(a), floor, Abs(x), top);
    BelowMagnitudes(a, x);
  }

  lemma BelowMagnitudes(a: real, x: real)
    ensures Times(a, x) <= Times(Abs(a), Abs(x))
  {
    if a >= 0.0 && x < 0.0 { Monotone(0.0, a, 0.0, -x); } else if a < 0.0 && x >= 0.0 { Monotone(0.0, -a, 0.0, x); }
  }

  lemma {:induction false} DotBound(a: seq<real>, x: seq<real>, floor: real, top: real)
    requires |x| <= |a| && (forall i | 0 <= i < |x| :: Accepts.Within(a[i], floor) && Abs(x[i]) <= top)
    ensures Dot(a, x) <= Times(|x| as real, Times(floor, top))
    decreases |x|
  {
    if x != [] {
      var k := |x| - 1;
      DotBound(a, x[..k], floor, top);
      ProductBound(a[k], x[k], floor, top);
      OneMoreTime(k, Times(floor, top));
    }
  }

  lemma OneMoreTime(k: nat, b: real)
    ensures Times((k + 1) as real, b) == Times(k as real, b) + b
  {
  }

  /** The sum of the points' squared inverse times, which no entry of the normal equations exceeds. */
  function Weight(ps: seq<Point>): real
    requires forall i | 0 <= i < |ps| :: ps[i].elapsed > 0.0
  {
    if ps == [] then 0.0 else Weight(ps[..|ps| - 1]) + Squared(Ratio(1.0, ps[|ps| - 1].elapsed))
  }

  /** Features lie between zero and the scale of their column. */
  ghost predicate Scaled(ps: seq<Point>, scales: seq<real>)
    requires Ready(ps, scales)
  {
    forall i | 0 <= i < |ps| :: InScale(ps[i], scales)
  }

  predicate InScale(p: Point, scales: seq<real>)
    requires |scales| <= |p.features|
  {
    forall c | 0 <= c < |scales| :: 0.0 <= p.features[c] <= scales[c]
  }

  lemma EntryBound(feature: real, scale: real, elapsed: real)
    requires 0.0 <= feature <= scale && scale > 0.0 && elapsed > 0.0
    ensures 0.0 <= Entry(feature, scale, elapsed) <= Ratio(1.0, elapsed)
  {
    var a, b := feature / scale, 1.0 / elapsed;
    EntrySign(feature, scale, elapsed);
    assert b > 0.0;
    AtMostOne(feature, scale);
    EntrySign(feature, scale, 1.0);
    assert 0.0 <= a by { assert Entry(feature, scale, 1.0) == a; }
    Monotone(a, 1.0, b, b);
    assert Times(1.0, b) == b;
  }

  lemma AtMostOne(a: real, d: real)
    requires a <= d && d > 0.0
    ensures a / d <= 1.0
  {
    var q := a / d;
    assert q * d == a;
    if q > 1.0 { MoreThanOnce(q, d); }
  }

  lemma MoreThanOnce(q: real, d: real)
    requires q > 1.0 && d > 0.0
    ensures q * d > d
  {
    assert (q - 1.0) * d > 0.0;
  }

  lemma TermBound(before: real, weight: real, a: real, b: real, top: real)
    requires 0.0 <= before <= weight && 0.0 <= a <= top && 0.0 <= b <= top
    ensures 0.0 <= Raised(before, a, b) <= weight + Squared(top)
  {
    Monotone(a, top, b, top);
  }

  lemma {:induction false} NormalBound(ps: seq<Point>, scales: seq<real>, active: seq<nat>, i: nat, j: nat)
    requires Ready(ps, scales) && Scaled(ps, scales) && NonnegativeFit.Within(active, |scales|)
    requires i < |active| <= MAX_COEFFICIENTS && j < |active|
    ensures 0.0 <= Normal(Rows(ps, scales, active), |active|)[i][j] <= Weight(ps)
  {
    if ps != [] {
      var k, n := |ps| - 1, |active|;
      var rows, p := Rows(ps, scales, active), ps[k];
      assert InScale(p, scales);
      NormalBound(ps[..k], scales, active, i, j);
      assert rows[..k] == Rows(ps[..k], scales, active);
      NormalStep(rows, n, i);
      AddScaledAt(Normal(rows[..k], n)[i], rows[k][i], rows[k], j);
      EntryBound(p.features[active[i]], scales[active[i]], p.elapsed);
      EntryBound(p.features[active[j]], scales[active[j]], p.elapsed);
      TermBound(Normal(rows[..k], n)[i][j], Weight(ps[..k]), rows[k][i], rows[k][j], Ratio(1.0, p.elapsed));
    }
  }

  lemma LargestIsBounded(ps: seq<Point>, scales: seq<real>, active: seq<nat>)
    requires Ready(ps, scales) && Scaled(ps, scales) && NonnegativeFit.Within(active, |scales|)
    requires 0 < |active| <= MAX_COEFFICIENTS
    ensures 0.0 <= Largest(Normal(Rows(ps, scales, active), |active|), |active|) <= Weight(ps)
  {
    var m := Normal(Rows(ps, scales, active), |active|);
    Accepts.LargestBounds(m, |m|, 0, 0);
    Accepts.LargestAttained(m, |m|);
    var i: nat, j: nat :| i < |m| && Accepts.IsEntry(m, i, j, Largest(m, |m|));
    NormalBound(ps, scales, active, i, j);
  }

  // ----- what a refused subset would mean -----

  lemma {:induction false} SmallEnergy(rows: seq<seq<real>>, x: seq<real>, floor: real)
    requires Width(rows, |x|) && |x| <= MAX_COEFFICIENTS
    requires Accepts.NearlyKills(Normal(rows, |x|), floor, x)
    ensures Energy(rows, x) <= Times(|x| as real, Times(floor, MaxAbs(x)))
  {
    var image := Image(Normal(rows, |x|), x);
    NormalIsEnergy(rows, x);
    forall i | 0 <= i < |x| ensures Accepts.Within(image[i], floor) && Abs(x[i]) <= MaxAbs(x) { MaxAbsBounds(x, i); }
    DotBound(image, x, floor, MaxAbs(x));
  }

  lemma Monotone(a: real, b: real, c: real, d: real)
    requires 0.0 <= a <= b && 0.0 <= c <= d
    ensures 0.0 <= Times(a, c) <= Times(b, d)
  {
    NonnegativeProduct(a, c);
    NonnegativeProduct(b - a, c);
    NonnegativeProduct(b, d - c);
    assert b * d - a * c == (b - a) * c + b * (d - c);
  }

  lemma NonnegativeProduct(a: real, b: real)
    requires a >= 0.0 && b >= 0.0
    ensures a * b >= 0.0
  {
  }

  lemma Chain(n: nat, columns: nat, largest: real, weight: real, top: real)
    requires n <= columns && 0.0 <= largest <= weight && top >= 1.0
    ensures Times(n as real, Times(largest * TOLERANCE, top)) <= Bound(columns, weight, top)
  {
    Monotone(1.0, top, top, top);
    assert Times(1.0, top) == top;
    Monotone(largest * TOLERANCE, weight * TOLERANCE, top, Squared(top));
    Monotone(n as real, columns as real, Times(largest * TOLERANCE, top), Times(weight * TOLERANCE, Squared(top)));
  }

  // ----- the condition on the points -----

  /** What coefficients predict for the points, relative to their times, squared and summed. */
  function Strength(ps: seq<Point>, k: seq<real>): real
    requires Ready(ps, []) && |k| <= MAX_COEFFICIENTS
  {
    if ps == [] then 0.0
    else Strength(ps[..|ps| - 1], k) + Squared(Ratio(Dot(ps[|ps| - 1].features, k), ps[|ps| - 1].elapsed))
  }

  /** The most that any one column contributes to a point's prediction. */
  function Reach(k: seq<real>, scales: seq<real>): real
    requires |k| == |scales|
  {
    MaxAbs(seq(|k|, c requires 0 <= c < |k| => Times(k[c], scales[c])))
  }

  /** The bound on what nearly cancels, for a number of columns and how far it reaches. */
  function Bound(columns: nat, weight: real, reach: real): real {
    Times(columns as real, Times(weight * TOLERANCE, Squared(reach)))
  }

  /** No combination of the columns nearly cancels: what it predicts is not below the tolerance
      times what its strongest column contributes. */
  ghost predicate Separated(ps: seq<Point>, scales: seq<real>)
    requires Ready(ps, scales)
  {
    forall k: seq<real> | |k| == |scales| && NonZero(k) ::
      Strength(ps, k) > Bound(|k|, Weight(ps), Reach(k, scales))
  }

  predicate NonZero(k: seq<real>) { exists c | 0 <= c < |k| :: k[c] != 0.0 }

  lemma {:induction false} StrengthIsEnergy(ps: seq<Point>, scales: seq<real>, mask: nat, k: seq<real>)
    requires Ready(ps, scales) && |k| == |scales| && Supported(k, mask)
    ensures var active := Active(mask, |scales|);
            Strength(ps, k) == Energy(Rows(ps, scales, active), Local(k, scales, active))
  {
    var active := Active(mask, |scales|);
    if ps != [] {
      var i := |ps| - 1;
      StrengthIsEnergy(ps[..i], scales, mask, k);
      assert Rows(ps, scales, active)[..i] == Rows(ps[..i], scales, active);
      PredictionIsLocal(ps[i], scales, mask, k, |k|);
      assert k[..|k|] == k;
    }
  }

  lemma {:induction false} MaxAbsLeast(x: seq<real>, top: real)
    requires top >= 0.0 && forall i | 0 <= i < |x| :: Abs(x[i]) <= top
    ensures MaxAbs(x) <= top
  {
    if x != [] { MaxAbsLeast(x[..|x| - 1], top); }
  }

  /** Coefficients on a subset reach as far as their local unknowns. */
  lemma ReachIsLocal(k: seq<real>, scales: seq<real>, mask: nat)
    requires |k| == |scales| && Supported(k, mask)
    ensures MaxAbs(Local(k, scales, Active(mask, |scales|))) == Reach(k, scales)
  {
    var active := Active(mask, |scales|);
    var local, all := Local(k, scales, active), seq(|k|, c requires 0 <= c < |k| => Times(k[c], scales[c]));
    forall l | 0 <= l < |local| ensures Abs(local[l]) <= MaxAbs(all) { MaxAbsBounds(all, active[l]); }
    MaxAbsBounds(all, 0);
    MaxAbsLeast(local, MaxAbs(all));
    forall c | 0 <= c < |all| ensures Abs(all[c]) <= MaxAbs(local) { LocalReach(k, scales, mask, c); }
    MaxAbsBounds(local, 0);
    MaxAbsLeast(all, MaxAbs(local));
  }

  lemma LocalReach(k: seq<real>, scales: seq<real>, mask: nat, c: nat)
    requires |k| == |scales| && Supported(k, mask) && c < |k|
    ensures Abs(Times(k[c], scales[c])) <= MaxAbs(Local(k, scales, Active(mask, |scales|)))
  {
    var active := Active(mask, |scales|);
    var local := Local(k, scales, active);
    ActiveIsBits(mask, |scales|, c);
    if Bit(mask, c) {
      var l :| 0 <= l < |active| && active[l] == c;
      MaxAbsBounds(local, l);
    } else {
      MaxAbsBounds(local, 0);
    }
  }

  lemma RefusedLocally(ps: seq<Point>, scales: seq<real>, active: seq<nat>) returns (c: nat, x: seq<real>)
    requires Ready(ps, scales) && Scaled(ps, scales) && NonnegativeFit.Within(active, |scales|)
    requires 0 < |active| <= |scales| && LocalSolution(ps, scales, active).None?
    ensures |x| == |active| && c < |x| && x[c] == 1.0
    ensures Energy(Rows(ps, scales, active), x) <= Bound(|scales|, Weight(ps), MaxAbs(x))
  {
    var rows, n := Rows(ps, scales, active), |active|;
    c, x := Accepts.SolveRefused(Normal(rows, n), RightSide(rows, n));
    var largest := Largest(Normal(rows, n), n);
    SmallEnergy(rows, x, largest * TOLERANCE);
    LargestIsBounded(ps, scales, active);
    MaxAbsBounds(x, c);
    Chain(n, |scales|, largest, Weight(ps), MaxAbs(x));
  }

  /** A refused subset of the columns is a combination that nearly cancels. */
  lemma RefusedCancels(ps: seq<Point>, scales: seq<real>, mask: nat) returns (k: seq<real>)
    requires Ready(ps, scales) && Scaled(ps, scales) && Active(mask, |scales|) != []
    requires LocalSolution(ps, scales, Active(mask, |scales|)).None?
    ensures |k| == |scales| && Supported(k, mask) && NonZero(k)
    ensures Strength(ps, k) <= Bound(|k|, Weight(ps), Reach(k, scales))
  {
    var active := Active(mask, |scales|);
    var c, x := RefusedLocally(ps, scales, active);
    k := Place(x, scales, active, |active|);
    PlacedIsLocal(x, scales, mask);
    StrengthIsEnergy(ps, scales, mask, k);
    ReachIsLocal(k, scales, mask);
    PlacedNonZero(x, scales, mask, c);
  }

  lemma PlacedNonZero(x: seq<real>, scales: seq<real>, mask: nat, c: nat)
    requires |Active(mask, |scales|)| == |x| && (forall c | 0 <= c < |scales| :: scales[c] > 0.0) && c < |x| && x[c] == 1.0
    ensures NonZero(Place(x, scales, Active(mask, |scales|), |x|))
  {
    var active := Active(mask, |scales|);
    var k := Place(x, scales, active, |x|);
    PlacedIsLocal(x, scales, mask);
    assert Local(k, scales, active)[c] == Times(k[active[c]], scales[active[c]]);
    if k[active[c]] == 0.0 { TimesZero(scales[active[c]]); }
    assert k[active[c]] != 0.0;
  }

  lemma CheckedIsScaled(ps: seq<Point>, columns: nat)
    requires Shaped(ps) && columns <= MAX_COEFFICIENTS && Checked(ps, columns).None? && Ready(ps, Scales(ps, columns))
    ensures Scaled(ps, Scales(ps, columns))
  {
    GoodPoints(ps, columns);
    forall i | 0 <= i < |ps| ensures InScale(ps[i], Scales(ps, columns)) {
      assert GoodFeatures(ps[i], columns);
      forall c | 0 <= c < columns ensures ps[i].features[c] <= Scale(ps, c) { FeatureBelowScale(ps, c, i); }
    }
  }

  lemma {:induction false} SomeColumn(mask: nat, columns: nat)
    requires 1 <= mask < Pow2(columns)
    ensures exists c | 0 <= c < columns :: Bit(mask, c)
  {
    if mask % 2 == 1 {
      assert Bit(mask, 0);
    } else {
      SomeColumn(mask / 2, columns - 1);
      var c :| 0 <= c < columns - 1 && Bit(mask / 2, c);
      assert Bit(mask, c + 1);
    }
  }

  /** On points whose columns are separated the solver accepts every subset. */
  lemma SeparatedIsResolved(ps: seq<Point>, columns: nat)
    requires Shaped(ps) && columns <= MAX_COEFFICIENTS && Checked(ps, columns).None?
    requires Ready(ps, Scales(ps, columns)) && Separated(ps, Scales(ps, columns))
    ensures forall mask | 1 <= mask < Pow2(columns) :: LocalSolution(ps, Scales(ps, columns), Active(mask, columns)).Some?
    ensures AllResolved(ps, Scales(ps, columns))
  {
    var scales := Scales(ps, columns);
    CheckedIsScaled(ps, columns);
    forall mask | 1 <= mask < Pow2(columns) ensures LocalSolution(ps, scales, Active(mask, columns)).Some? {
      if LocalSolution(ps, scales, Active(mask, columns)).None? {
        SomeColumn(mask, columns);
        var c :| 0 <= c < columns && Bit(mask, c);
        ActiveIsBits(mask, columns, c);
        var k := RefusedCancels(ps, scales, mask);
      }
    }
  }

  /** So on such points the fit has the least error of all non-negative coefficients. */
  lemma SeparatedFitIsOptimum(ps: seq<Point>, columns: nat, best: seq<real>, x: seq<real>)
    requires Shaped(ps) && 0 < columns <= MAX_COEFFICIENTS && Checked(ps, columns).None?
    requires Ready(ps, Scales(ps, columns)) && Separated(ps, Scales(ps, columns))
    requires BestOf(ps, Candidates(ps, Scales(ps, columns), Pow2(columns)), columns, Some(best))
    requires |x| == columns && Nonnegative(x)
    ensures FitError(ps, best) <= FitError(ps, x)
  {
    SeparatedIsResolved(ps, columns);
    FitIsGlobalOptimum(ps, columns, best, x);
  }
}

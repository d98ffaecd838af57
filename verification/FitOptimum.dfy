/** The fit against all non-negative coefficients: with every independent subset's system solved,
    searching the subsets finds the constrained least-squares optimum. */
module FitOptimum {
  import opened Powers
  import opened Wrappers
  import opened LinearSolve
  import opened NonnegativeFit

  // ----- the error is convex -----

  /** The point `t` of the way from `x` to `z`. */
  function At(x: real, z: real, t: real): real { x + Times(t, z - x) }

  function Along(x: seq<real>, z: seq<real>, t: real): (y: seq<real>)
    requires |x| == |z|
    ensures |y| == |x|
  {
    seq(|x|, c requires 0 <= c < |x| => At(x[c], z[c], t))
  }

  lemma DotTerm(dx: real, dz: real, f: real, x: real, z: real, t: real)
    ensures At(dx, dz, t) + Times(f, At(x, z, t)) == At(dx + Times(f, x), dz + Times(f, z), t)
  {
    calc {
      f * (x + t * (z - x));
      f * x + f * (t * (z - x));
      f * x + t * (f * (z - x));
      f * x + t * (f * z - f * x);
    }
  }

  lemma {:induction false} DotAlong(row: seq<real>, x: seq<real>, z: seq<real>, t: real)
    requires |x| == |z| <= |row|
    ensures Dot(row, Along(x, z, t)) == At(Dot(row, x), Dot(row, z), t)
    decreases |x|
  {
    if x != [] {
      var k := |x| - 1;
      assert Along(x, z, t)[..k] == Along(x[..k], z[..k], t);
      DotAlong(row, x[..k], z[..k], t);
      DotTerm(Dot(row, x[..k]), Dot(row, z[..k]), row[k], x[k], z[k], t);
    }
  }

  lemma RatioAlong(dx: real, dz: real, e: real, t: real)
    requires e > 0.0
    ensures Ratio(At(dx, dz, t) - e, e) == At(Ratio(dx - e, e), Ratio(dz - e, e), t)
  {
    var a, b := dx - e, dz - e;
    assert At(dx, dz, t) - e == a + t * (b - a);
    calc {
      (a + t * (b - a)) / e;
      a / e + t * (b - a) / e;
      a / e + t * ((b - a) / e);
      a / e + t * (b / e - a / e);
    }
  }

  /** A square lies below the chord. */
  lemma SquareConvex(a: real, b: real, t: real)
    requires 0.0 <= t <= 1.0
    ensures Squared(At(a, b, t)) <= At(Squared(a), Squared(b), t)
  {
    var d := b - a;
    SquareSign(d);
    ChordGap(a, d, t);
    ProductSign(t, 1.0 - t);
    ProductSign(t * (1.0 - t), d * d);
    assert a + d == b;
  }

  lemma ChordGap(a: real, d: real, t: real)
    ensures At(Squared(a), Squared(a + d), t) - Squared(At(a, a + d, t)) == t * (1.0 - t) * (d * d)
  {
    var u := a * d;
    assert (a + d) * (a + d) == a * a + 2.0 * u + d * d;
    assert (a + t * d) * (a + t * d) == a * a + 2.0 * (t * u) + t * t * (d * d);
    assert t * (2.0 * u + d * d) == 2.0 * (t * u) + t * (d * d);
    assert t * (1.0 - t) * (d * d) == t * (d * d) - t * t * (d * d);
  }

  lemma ProductSign(a: real, b: real)
    requires a >= 0.0 && b >= 0.0
    ensures a * b >= 0.0
  {
  }

  lemma {:induction false} ErrorConvex(ps: seq<Point>, x: seq<real>, z: seq<real>, t: real)
    requires Ready(ps, []) && |x| == |z| <= MAX_COEFFICIENTS && 0.0 <= t <= 1.0
    ensures FitError(ps, Along(x, z, t)) <= At(FitError(ps, x), FitError(ps, z), t)
  {
    if ps != [] {
      var k := |ps| - 1;
      ErrorConvex(ps[..k], x, z, t);
      DotAlong(ps[k].features, x, z, t);
      RatioAlong(Dot(ps[k].features, x), Dot(ps[k].features, z), ps[k].elapsed, t);
      SquareConvex(Relative(ps[k], x), Relative(ps[k], z), t);
      DotTerm(FitError(ps[..k], x), FitError(ps[..k], z), 1.0, Squared(Relative(ps[k], x)), Squared(Relative(ps[k], z)), t);
    }
  }

  /** Walking towards a vector with no larger error does not raise the error. */
  lemma WalkDescends(ps: seq<Point>, x: seq<real>, z: seq<real>, t: real)
    requires Ready(ps, []) && |x| == |z| <= MAX_COEFFICIENTS && 0.0 <= t <= 1.0
    requires FitError(ps, z) <= FitError(ps, x)
    ensures FitError(ps, Along(x, z, t)) <= FitError(ps, x)
  {
    ErrorConvex(ps, x, z, t);
    BelowStart(FitError(ps, x), FitError(ps, z), t);
  }

  lemma BelowStart(a: real, b: real, t: real)
    requires b <= a && 0.0 <= t
    ensures At(a, b, t) <= a
  {
    assert t * (a - b) >= 0.0;
  }

  // ----- until a coefficient reaches zero -----

  /** No coefficient is negative `t` of the way. */
  ghost predicate Safe(x: seq<real>, z: seq<real>, t: real)
    requires |x| == |z|
  {
    0.0 <= t <= 1.0 && forall c | 0 <= c < |x| :: At(x[c], z[c], t) >= 0.0
  }

  lemma StaysAbove(x: real, z: real, t: real)
    requires x >= 0.0 && z >= 0.0 && 0.0 <= t <= 1.0
    ensures At(x, z, t) >= 0.0
  {
    assert x + t * (z - x) == (1.0 - t) * x + t * z;
    assert (1.0 - t) * x >= 0.0 && t * z >= 0.0;
  }

  /** Where one falling coefficient reaches zero: not negative before, not positive after. */
  lemma Crossing(x: real, z: real) returns (t: real)
    requires x >= 0.0 && z < 0.0
    ensures 0.0 <= t <= 1.0 && At(x, z, t) == 0.0
    ensures forall s | 0.0 <= s <= t :: At(x, z, s) >= 0.0
    ensures forall s | t <= s :: At(x, z, s) <= 0.0
  {
    t := x / (x - z);
    var d := x - z;
    assert t * d == x;
    assert At(x, z, t) == x - t * d;
    forall s | 0.0 <= s <= t ensures At(x, z, s) >= 0.0 { Falls(x, z, s, t); }
    forall s | t <= s ensures At(x, z, s) <= 0.0 { Falls(x, z, t, s); }
  }

  lemma Falls(x: real, z: real, s: real, t: real)
    requires z < x && s <= t
    ensures At(x, z, s) >= At(x, z, t)
  {
    var d := x - z;
    assert (t - s) * d >= 0.0;
    assert At(x, z, s) - At(x, z, t) == (t - s) * d;
  }

  /** The first coefficient to reach zero on the way to a vector with a negative one. */
  lemma {:induction false} FirstZero(x: seq<real>, z: seq<real>) returns (t: real, c: nat)
    requires |x| == |z| && Nonnegative(x) && !Nonnegative(z)
    ensures Safe(x, z, t) && c < |x| && z[c] < 0.0 && At(x[c], z[c], t) == 0.0
  {
    var k := |x| - 1;
    if Nonnegative(z[..k]) {
      c := k;
      t := Crossing(x[k], z[k]);
      forall i | 0 <= i < |x| ensures At(x[i], z[i], t) >= 0.0 {
        if i < k { assert z[..k][i] >= 0.0; StaysAbove(x[i], z[i], t); }
      }
    } else {
      t, c := FirstZero(x[..k], z[..k]);
      assert forall i | 0 <= i < k :: At(x[..k][i], z[..k][i], t) == At(x[i], z[i], t);
      if z[k] >= 0.0 {
        StaysAbove(x[k], z[k], t);
      } else {
        var u := Crossing(x[k], z[k]);
        if u < t {
          SaferEarlier(x[..k], z[..k], t, u);
          assert forall i | 0 <= i < k :: At(x[..k][i], z[..k][i], u) == At(x[i], z[i], u);
          t, c := u, k;
        }
      }
    }
  }

  lemma SaferEarlier(x: seq<real>, z: seq<real>, t: real, u: real)
    requires |x| == |z| && Nonnegative(x) && Safe(x, z, t) && 0.0 <= u <= t
    ensures Safe(x, z, u)
  {
    forall c | 0 <= c < |x| ensures At(x[c], z[c], u) >= 0.0 {
      assert At(x[c], z[c], t) >= 0.0;
      if z[c] >= 0.0 { StaysAbove(x[c], z[c], u); } else { Falls(x[c], z[c], u, t); }
    }
  }

  // ----- the columns a vector uses -----

  /** The mask of the columns with a coefficient other than zero. */
  function MaskOf(x: seq<real>): (mask: nat)
    ensures mask < Pow2(|x|)
  {
    if x == [] then 0 else (if x[0] == 0.0 then 0 else 1) + 2 * MaskOf(x[1..])
  }

  lemma {:induction false} MaskBit(x: seq<real>, c: nat)
    requires c < |x|
    ensures Bit(MaskOf(x), c) <==> x[c] != 0.0
  {
    if c > 0 {
      MaskBit(x[1..], c - 1);
      assert MaskOf(x) / 2 == MaskOf(x[1..]);
    }
  }

  lemma {:induction false} MaskIsZero(x: seq<real>)
    requires MaskOf(x) == 0
    ensures forall c | 0 <= c < |x| :: x[c] == 0.0
  {
    if x != [] {
      MaskIsZero(x[1..]);
      forall c | 0 <= c < |x| ensures x[c] == 0.0 { if c > 0 { assert x[1..][c - 1] == 0.0; } }
    }
  }

  /** Fewer columns make a smaller mask. */
  lemma {:induction false} MaskShrinks(x: seq<real>, y: seq<real>)
    requires |x| == |y| && forall c | 0 <= c < |x| :: x[c] == 0.0 ==> y[c] == 0.0
    ensures MaskOf(y) <= MaskOf(x)
    ensures (exists c | 0 <= c < |x| :: x[c] != 0.0 && y[c] == 0.0) ==> MaskOf(y) < MaskOf(x)
  {
    if x != [] {
      assert forall c | 0 <= c < |x| - 1 :: x[1..][c] == x[c + 1] && y[1..][c] == y[c + 1];
      MaskShrinks(x[1..], y[1..]);
      if c :| 0 <= c < |x| && x[c] != 0.0 && y[c] == 0.0 {
        if c > 0 { assert x[1..][c - 1] != 0.0 && y[1..][c - 1] == 0.0; }
      }
    }
  }

  lemma MaskSupports(x: seq<real>)
    ensures Supported(x, MaskOf(x))
  {
    forall c | 0 <= c < |x| && !Bit(MaskOf(x), c) ensures x[c] == 0.0 { MaskBit(x, c); }
  }

  // ----- the optimum -----

  /** A combination of a subset's columns that adds up to nothing at every point. */
  ghost predicate Kernel(ps: seq<Point>, columns: nat, mask: nat, k: seq<real>)
    requires Shaped(ps) && columns <= MAX_COEFFICIENTS
  {
    && |k| == columns && Supported(k, mask) && (exists c | 0 <= c < |k| :: k[c] != 0.0)
    && forall i | 0 <= i < |ps| :: Dot(ps[i].features, k) == 0.0
  }

  /** The subset's columns are linearly dependent. */
  ghost predicate Dependent(ps: seq<Point>, columns: nat, mask: nat)
    requires Shaped(ps) && columns <= MAX_COEFFICIENTS
  {
    exists k :: Kernel(ps, columns, mask, k)
  }

  /** The solver rejects no subset's system but those of linearly dependent columns. */
  ghost predicate AllResolved(ps: seq<Point>, scales: seq<real>)
    requires Ready(ps, scales)
  {
    forall mask | 1 <= mask < Pow2(|scales|) && !Dependent(ps, |scales|, mask) ::
      LocalSolution(ps, scales, Active(mask, |scales|)).Some?
  }

  /** From non-negative coefficients whose columns' own optimum is not, a step to others on fewer
      columns and with no larger error. */
  lemma FewerColumns(ps: seq<Point>, x: seq<real>, z: seq<real>) returns (y: seq<real>)
    requires Ready(ps, []) && |x| == |z| <= MAX_COEFFICIENTS && Nonnegative(x) && !Nonnegative(z)
    requires Supported(z, MaskOf(x)) && FitError(ps, z) <= FitError(ps, x)
    ensures |y| == |x| && Nonnegative(y) && MaskOf(y) < MaskOf(x) && FitError(ps, y) <= FitError(ps, x)
  {
    var t, c := FirstZero(x, z);
    y := Along(x, z, t);
    WalkDescends(ps, x, z, t);
    forall d | 0 <= d < |x| ensures x[d] == 0.0 ==> z[d] == 0.0 && y[d] == 0.0 { MaskBit(x, d); }
    assert x[c] != 0.0 && y[c] == 0.0;
    MaskShrinks(x, y);
  }

  lemma {:induction false} SameError(ps: seq<Point>, x: seq<real>, y: seq<real>)
    requires Ready(ps, []) && |x| == |y| <= MAX_COEFFICIENTS
    requires forall i | 0 <= i < |ps| :: Dot(ps[i].features, x) == Dot(ps[i].features, y)
    ensures FitError(ps, x) == FitError(ps, y)
  {
    if ps != [] { SameError(ps[..|ps| - 1], x, y); }
  }

  function Plus(x: seq<real>, k: seq<real>): (z: seq<real>)
    requires |x| == |k|
    ensures |z| == |x|
  {
    seq(|x|, c requires 0 <= c < |x| => x[c] + k[c])
  }

  lemma DotPlus(row: seq<real>, x: seq<real>, k: seq<real>)
    requires |x| == |k| <= |row|
    ensures Dot(row, Plus(x, k)) == Dot(row, x) + Dot(row, k)
  {
    DotDiff(row, Plus(x, k), x);
    assert Diff(Plus(x, k), x) == k;
  }

  lemma ReachesMinusOne(x: real, k: real) returns (t: real)
    requires k != 0.0
    ensures At(x, x + k, t) == -1.0
  {
    t := (-1.0 - x) / k;
    assert t * k == -1.0 - x;
  }

  lemma ShiftedDot(row: seq<real>, x: seq<real>, k: seq<real>, t: real)
    requires |x| == |k| <= |row| && Dot(row, k) == 0.0
    ensures Dot(row, Along(x, Plus(x, k), t)) == Dot(row, x)
  {
    DotPlus(row, x, k);
    DotAlong(row, x, Plus(x, k), t);
    StaysPut(Dot(row, x), t);
  }

  lemma StaysPut(d: real, t: real)
    ensures At(d, d, t) == d
  {
    TimesZero(t);
  }

  /** Moving along such a combination changes no error and leaves the non-negative vectors. */
  lemma KernelLeads(ps: seq<Point>, x: seq<real>, k: seq<real>) returns (z: seq<real>)
    requires Ready(ps, []) && |x| <= MAX_COEFFICIENTS && Kernel(ps, |x|, MaskOf(x), k)
    ensures |z| == |x| && Supported(z, MaskOf(x)) && !Nonnegative(z) && FitError(ps, z) == FitError(ps, x)
  {
    var c :| 0 <= c < |k| && k[c] != 0.0;
    var t := ReachesMinusOne(x[c], k[c]);
    z := Along(x, Plus(x, k), t);
    assert z[c] < 0.0;
    MaskSupports(x);
    assert Supported(z, MaskOf(x));
    forall i | 0 <= i < |ps| ensures Dot(ps[i].features, x) == Dot(ps[i].features, z) {
      ShiftedDot(ps[i].features, x, k, t);
    }
    SameError(ps, x, z);
  }

  /** On the way out of a subset whose optimum is no candidate: its solution has a negative entry,
      or its columns are dependent. */
  lemma WayOut(ps: seq<Point>, scales: seq<real>, x: seq<real>) returns (z: seq<real>)
    requires Ready(ps, scales) && AllResolved(ps, scales) && |x| == |scales|
    requires MaskOf(x) > 0 && !Accepted(ps, scales, MaskOf(x))
    ensures |z| == |x| && Supported(z, MaskOf(x)) && !Nonnegative(z) && FitError(ps, z) <= FitError(ps, x)
  {
    var mask := MaskOf(x);
    if Dependent(ps, |x|, mask) {
      var k :| Kernel(ps, |x|, mask, k);
      z := KernelLeads(ps, x, k);
    } else {
      var active := Active(mask, |scales|);
      var sol := LocalSolution(ps, scales, active).value;
      MaskSupports(x);
      SubsetOptimum(ps, scales, mask, x);
      NegativePlaced(sol, scales, mask);
      z := Place(sol, scales, active, |active|);
    }
  }

  /** The fit has the least error of ALL non-negative coefficients, whenever the solver rejects no
      subset's system but those of linearly dependent columns. */
  lemma {:induction false} FitIsGlobalOptimum(ps: seq<Point>, columns: nat, best: seq<real>, x: seq<real>)
    requires Shaped(ps) && 0 < columns <= MAX_COEFFICIENTS && Checked(ps, columns).None?
    requires Ready(ps, Scales(ps, columns)) && AllResolved(ps, Scales(ps, columns))
    requires BestOf(ps, Candidates(ps, Scales(ps, columns), Pow2(columns)), columns, Some(best))
    requires |x| == columns && Nonnegative(x)
    ensures FitError(ps, best) <= FitError(ps, x)
    decreases MaskOf(x)
  {
    var scales, mask := Scales(ps, columns), MaskOf(x);
    if mask == 0 {
      MaskIsZero(x);
      FirstColumnFeasible(ps, columns);
      FitIsOptimal(ps, scales, best, 1, x);
    } else {
      MaskSupports(x);
      if Accepted(ps, scales, mask) {
        FitIsOptimal(ps, scales, best, mask, x);
      } else {
        var z := WayOut(ps, scales, x);
        var y := FewerColumns(ps, x, z);
        FitIsGlobalOptimum(ps, columns, best, y);
      }
    }
  }

  lemma NegativePlaced(sol: seq<real>, scales: seq<real>, mask: nat)
    requires |Active(mask, |scales|)| == |sol| && (forall c | 0 <= c < |scales| :: scales[c] > 0.0) && !Nonnegative(sol)
    ensures !Nonnegative(Place(sol, scales, Active(mask, |scales|), |sol|))
  {
    var active := Active(mask, |scales|);
    PlaceAt(sol, scales, active, |sol|);
    var l :| 0 <= l < |sol| && sol[l] < 0.0;
    NegativeRatio(sol[l], scales[active[l]]);
    assert Place(sol, scales, active, |sol|)[active[l]] < 0.0;
  }

  lemma NegativeRatio(a: real, s: real)
    requires a < 0.0 && s > 0.0
    ensures Ratio(a, s) < 0.0
  {
    ScaleUndone(a, s);
  }

  // ----- what the solver accepts is independent -----

  lemma KernelRow(p: Point, scales: seq<real>, mask: nat, k: seq<real>)
    requires |p.features| == MAX_COEFFICIENTS >= |scales| == |k| && p.elapsed > 0.0
    requires (forall c | 0 <= c < |scales| :: scales[c] > 0.0) && Supported(k, mask) && Dot(p.features, k) == 0.0
    ensures var active := Active(mask, |scales|); Dot(Row(p, scales, active), Local(k, scales, active)) == 0.0
  {
    PredictionIsLocal(p, scales, mask, k, |k|);
    assert k[..|k|] == k;
    ZeroRatio(p.elapsed);
  }

  lemma ZeroRatio(d: real)
    requires d > 0.0
    ensures Ratio(0.0, d) == 0.0
  {
  }

  lemma {:induction false} SameGradient(rows: seq<seq<real>>, u: seq<real>, v: seq<real>)
    requires |u| == |v| && Width(rows, |u|) && forall i | 0 <= i < |rows| :: Dot(rows[i], u) == Dot(rows[i], v)
    ensures Gradient(rows, u) == Gradient(rows, v)
  {
    if rows != [] { SameGradient(rows[..|rows| - 1], u, v); }
  }

  /** Vectors that the rows do not tell apart solve the same normal equations. */
  lemma SameSolutions(rows: seq<seq<real>>, u: seq<real>, v: seq<real>)
    requires |u| == |v| <= MAX_COEFFICIENTS && Width(rows, |u|)
    requires forall i | 0 <= i < |rows| :: Dot(rows[i], u) == Dot(rows[i], v)
    requires Solves(Normal(rows, |u|), RightSide(rows, |u|), u)
    ensures Solves(Normal(rows, |u|), RightSide(rows, |u|), v)
  {
    SameGradient(rows, u, v);
    GradientVanishes(rows, u);
    VanishedSolves(rows, v);
  }

  lemma VanishedSolves(rows: seq<seq<real>>, v: seq<real>)
    requires |v| <= MAX_COEFFICIENTS && Width(rows, |v|) && forall i | 0 <= i < |v| :: Gradient(rows, v)[i] == 0.0
    ensures Solves(Normal(rows, |v|), RightSide(rows, |v|), v)
  {
    var m, r := Normal(rows, |v|), RightSide(rows, |v|);
    forall i | 0 <= i < |m| ensures Dot(m[i], v) == r[i] { GradientIsResidual(rows, v, i); }
  }

  lemma LocalNonzero(k: seq<real>, scales: seq<real>, mask: nat) returns (l: nat)
    requires |k| == |scales| && Supported(k, mask) && (forall c | 0 <= c < |scales| :: scales[c] > 0.0)
    requires exists c | 0 <= c < |k| :: k[c] != 0.0
    ensures var active := Active(mask, |scales|); l < |active| && Local(k, scales, active)[l] != 0.0
  {
    var c :| 0 <= c < |k| && k[c] != 0.0;
    var active := Active(mask, |scales|);
    ActiveIsBits(mask, |scales|, c);
    l :| 0 <= l < |active| && active[l] == c;
  }

  lemma KernelRejects(rows: seq<seq<real>>, n: nat, move: seq<real>, l: nat)
    requires Width(rows, n) && |move| == n <= MAX_COEFFICIENTS && l < n && move[l] != 0.0
    requires forall i | 0 <= i < |rows| :: Dot(rows[i], move) == 0.0
    ensures SolveRows(rows, n).None?
  {
    if SolveRows(rows, n).Some? {
      var sol := SolveRows(rows, n).value;
      assert Plus(sol, move)[l] != sol[l];
      SolveIsUnique(Normal(rows, n), RightSide(rows, n));
      OtherSolution(rows, sol, move);
    }
  }

  lemma OtherSolution(rows: seq<seq<real>>, sol: seq<real>, move: seq<real>)
    requires Width(rows, |sol|) && |move| == |sol| <= MAX_COEFFICIENTS
    requires forall i | 0 <= i < |rows| :: Dot(rows[i], move) == 0.0
    requires Solves(Normal(rows, |sol|), RightSide(rows, |sol|), sol)
    ensures Solves(Normal(rows, |sol|), RightSide(rows, |sol|), Plus(sol, move))
  {
    forall i | 0 <= i < |rows| ensures Dot(rows[i], sol) == Dot(rows[i], Plus(sol, move)) {
      DotPlus(rows[i], sol, move);
    }
    SameSolutions(rows, sol, Plus(sol, move));
  }

  /** So a subset of linearly dependent columns is always rejected: the two ways a subset's system
      can be resolved exclude each other. */
  lemma DependentIsRejected(ps: seq<Point>, scales: seq<real>, mask: nat)
    requires Ready(ps, scales) && Dependent(ps, |scales|, mask)
    ensures LocalSolution(ps, scales, Active(mask, |scales|)).None?
  {
    var active := Active(mask, |scales|);
    var k :| Kernel(ps, |scales|, mask, k);
    var rows, move := Rows(ps, scales, active), Local(k, scales, active);
    forall i | 0 <= i < |rows| ensures Dot(rows[i], move) == 0.0 { KernelRow(ps[i], scales, mask, k); }
    var l := LocalNonzero(k, scales, mask);
    KernelRejects(rows, |active|, move, l);
  }
}

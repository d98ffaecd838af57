/** The non-negative cost-model fit: relative least squares over every non-empty subset of
    the columns, keeping the best feasible candidate. Over exact reals. */
module NonnegativeFit {
  import opened Powers
  import opened Wrappers
  import opened LinearSolve

  const MAX_COEFFICIENTS: nat := 5
  const SLACK := 0.000000001

  datatype Point = Point(features: seq<real>, elapsed: real, validation: bool)

  datatype Error = TooFewPoints | BadTime | BadFeature | Unobservable | RankDeficient

  datatype Result = Ok(coefficients: seq<real>) | Err(error: Error)

  predicate Shaped(points: seq<Point>) {
    forall i | 0 <= i < |points| :: |points[i].features| == MAX_COEFFICIENTS
  }

  // ----- input checks -----

  function Training(points: seq<Point>): seq<Point> {
    if points == [] then []
    else
      var k := |points| - 1;
      Training(points[..k]) + (if points[k].validation then [] else [points[k]])
  }

  predicate GoodFeatures(p: Point, columns: nat)
    requires columns <= |p.features|
  {
    forall c | 0 <= c < columns :: p.features[c] >= 0.0
  }

  function PointError(p: Point, columns: nat): Option<Error>
    requires columns <= |p.features|
  {
    if !(p.elapsed > 0.0) then Some(BadTime)
    else if !GoodFeatures(p, columns) then Some(BadFeature)
    else None
  }

  /** The error of the first bad training point. */
  function FirstError(ps: seq<Point>, columns: nat): Option<Error>
    requires Shaped(ps) && columns <= MAX_COEFFICIENTS
  {
    if ps == [] then None
    else
      var k := |ps| - 1;
      var before := FirstError(ps[..k], columns);
      if before.Some? then before else PointError(ps[k], columns)
  }

  function Scale(ps: seq<Point>, c: nat): real
    requires Shaped(ps) && c < MAX_COEFFICIENTS
  {
    if ps == [] then 0.0 else Max(Scale(ps[..|ps| - 1], c), ps[|ps| - 1].features[c])
  }

  function Scales(ps: seq<Point>, columns: nat): seq<real>
    requires Shaped(ps) && columns <= MAX_COEFFICIENTS
  {
    seq(columns, c requires 0 <= c < columns => Scale(ps, c))
  }

  function Checked(ps: seq<Point>, columns: nat): Option<Error>
    requires Shaped(ps) && columns <= MAX_COEFFICIENTS
  {
    if |ps| < columns then Some(TooFewPoints)
    else if FirstError(ps, columns).Some? then FirstError(ps, columns)
    else if exists c | 0 <= c < columns :: Scale(ps, c) == 0.0 then Some(Unobservable)
    else None
  }

  // ----- column subsets and their normal equations -----

  /** Bit `c` of a mask. */
  predicate Bit(mask: nat, c: nat) { if c == 0 then mask % 2 == 1 else Bit(mask / 2, c - 1) }

  /** The columns of a mask, ascending. */
  function Active(mask: nat, columns: nat): (r: seq<nat>)
    ensures |r| <= columns
    ensures forall l | 0 <= l < |r| :: r[l] < columns
    ensures forall l, k | 0 <= l < k < |r| :: r[l] < r[k]
  {
    if columns == 0 then []
    else Active(mask, columns - 1) + (if Bit(mask, columns - 1) then [columns - 1] else [])
  }

  function Raised(a: real, f: real, b: real): real { a + Times(f, b) }

  function Entry(feature: real, scale: real, elapsed: real): real
    requires scale != 0.0 && elapsed != 0.0
  {
    feature / scale * (1.0 / elapsed)
  }

  /** Scales and active columns fit the points; what the input checks establish. */
  ghost predicate Ready(ps: seq<Point>, scales: seq<real>) {
    && Shaped(ps) && |scales| <= MAX_COEFFICIENTS
    && (forall i | 0 <= i < |ps| :: ps[i].elapsed > 0.0)
    && (forall c | 0 <= c < |scales| :: scales[c] > 0.0)
  }

  predicate Within(active: seq<nat>, columns: nat) { forall l | 0 <= l < |active| :: active[l] < columns }

  function Row(p: Point, scales: seq<real>, active: seq<nat>): (r: seq<real>)
    requires |p.features| >= |scales| && p.elapsed > 0.0 && Within(active, |scales|)
    requires forall c | 0 <= c < |scales| :: scales[c] > 0.0
    ensures |r| == |active|
  {
    seq(|active|, l requires 0 <= l < |active| => Entry(p.features[active[l]], scales[active[l]], p.elapsed))
  }

  function Rows(ps: seq<Point>, scales: seq<real>, active: seq<nat>): (r: seq<seq<real>>)
    requires Ready(ps, scales) && Within(active, |scales|)
    ensures |r| == |ps| && forall i | 0 <= i < |r| :: |r[i]| == |active|
  {
    seq(|ps|, i requires 0 <= i < |ps| => Row(ps[i], scales, active))
  }

  /** Adds `f * row` to the first entries of `into`. */
  function AddScaled(into: seq<real>, f: real, row: seq<real>): seq<real>
    requires |row| <= |into|
  {
    seq(|into|, j requires 0 <= j < |into| => if j < |row| then Raised(into[j], f, row[j]) else into[j])
  }

  ghost predicate RowsOf(m: seq<seq<real>>, n: nat) {
    |m| == n <= MAX_COEFFICIENTS && forall i | 0 <= i < n :: |m[i]| == MAX_COEFFICIENTS
  }

  function AddOuter(m: seq<seq<real>>, row: seq<real>): (r: seq<seq<real>>)
    requires RowsOf(m, |row|)
    ensures RowsOf(r, |row|)
  {
    seq(|m|, i requires 0 <= i < |m| => AddScaled(m[i], row[i], row))
  }

  function AddRow(r: seq<real>, row: seq<real>): (s: seq<real>)
    requires |r| == |row|
    ensures |s| == |row|
  {
    seq(|r|, i requires 0 <= i < |r| => r[i] + row[i])
  }

  function Zeros(n: nat): seq<real> { seq(n, _ => 0.0) }

  function Normal(rows: seq<seq<real>>, n: nat): (m: seq<seq<real>>)
    requires n <= MAX_COEFFICIENTS && forall i | 0 <= i < |rows| :: |rows[i]| == n
    ensures RowsOf(m, n)
  {
    if rows == [] then seq(n, _ => Zeros(MAX_COEFFICIENTS))
    else AddOuter(Normal(rows[..|rows| - 1], n), rows[|rows| - 1])
  }

  function RightSide(rows: seq<seq<real>>, n: nat): (r: seq<real>)
    requires forall i | 0 <= i < |rows| :: |rows[i]| == n
    ensures |r| == n
  {
    if rows == [] then Zeros(n) else AddRow(RightSide(rows[..|rows| - 1], n), rows[|rows| - 1])
  }

  function LocalSolution(ps: seq<Point>, scales: seq<real>, active: seq<nat>): (r: Option<seq<real>>)
    requires Ready(ps, scales) && Within(active, |scales|) && |active| <= MAX_COEFFICIENTS
    ensures r.Some? ==> |r.value| == |active|
  {
    SolveRows(Rows(ps, scales, active), |active|)
  }

  function SolveRows(rows: seq<seq<real>>, n: nat): (r: Option<seq<real>>)
    requires n <= MAX_COEFFICIENTS && forall i | 0 <= i < |rows| :: |rows[i]| == n
    ensures r.Some? ==> |r.value| == n
  {
    var r := Solve(Normal(rows, n), RightSide(rows, n));
    if r.Some? then SolveIsUnique(Normal(rows, n), RightSide(rows, n)); r else r
  }

  predicate Feasible(sol: seq<real>) { forall l | 0 <= l < |sol| :: sol[l] >= -SLACK }

  /** The coefficients that the first `k` local unknowns give. */
  function Place(sol: seq<real>, scales: seq<real>, active: seq<nat>, k: nat): (r: seq<real>)
    requires k <= |active| == |sol| && Within(active, |scales|) && forall c | 0 <= c < |scales| :: scales[c] > 0.0
    ensures |r| == |scales| && (Nonnegative(sol) ==> Nonnegative(r))
  {
    if k == 0 then Zeros(|scales|)
    else Place(sol, scales, active, k - 1)[active[k - 1] := Ratio(sol[k - 1], scales[active[k - 1]])]
  }

  predicate Nonnegative(x: seq<real>) { forall c | 0 <= c < |x| :: x[c] >= 0.0 }

  function Clamped(sol: seq<real>): (r: seq<real>)
    ensures |r| == |sol| && Nonnegative(r)
  {
    seq(|sol|, l requires 0 <= l < |sol| => Max(0.0, sol[l]))
  }

  function Expand(sol: seq<real>, scales: seq<real>, active: seq<nat>): (r: seq<real>)
    requires |active| == |sol| && Within(active, |scales|) && forall c | 0 <= c < |scales| :: scales[c] > 0.0
    ensures |r| == |scales| && Nonnegative(r)
  {
    Place(Clamped(sol), scales, active, |active|)
  }

  /** The candidate of a mask, if its system is accepted and feasible. */
  function Candidate(ps: seq<Point>, scales: seq<real>, mask: nat): (r: Option<seq<real>>)
    requires Ready(ps, scales)
    ensures r.Some? ==> |r.value| == |scales| && Nonnegative(r.value)
  {
    var active := Active(mask, |scales|);
    match LocalSolution(ps, scales, active)
    case None => None
    case Some(sol) =>
      if Feasible(sol) then Some(Expand(sol, scales, active)) else None
  }

  // ----- the error a fit minimises -----

  function Relative(p: Point, coefficients: seq<real>): real
    requires |coefficients| <= |p.features| && p.elapsed > 0.0
  {
    Ratio(Dot(p.features, coefficients) - p.elapsed, p.elapsed)
  }

  function Squared(a: real): real { Times(a, a) }

  function FitError(ps: seq<Point>, coefficients: seq<real>): real
    requires Shaped(ps) && |coefficients| <= MAX_COEFFICIENTS && forall i | 0 <= i < |ps| :: ps[i].elapsed > 0.0
  {
    if ps == [] then 0.0
    else FitError(ps[..|ps| - 1], coefficients) + Squared(Relative(ps[|ps| - 1], coefficients))
  }

  // ----- the method -----

  method SelectTraining(points: seq<Point>) returns (training: seq<Point>)
    requires Shaped(points)
    ensures training == Training(points) && Shaped(training)
  {
    training := [];
    for i := 0 to |points|
      invariant training == Training(points[..i]) && Shaped(training)
    {
      assert points[..i + 1][..i] == points[..i];
      if !points[i].validation { training := training + [points[i]]; }
    }
    assert points[..|points|] == points;
  }

  /** Folds one point into the column maxima, refusing a bad one. */
  method CheckPoint(p: Point, columns: nat, scales: seq<real>) returns (error: Option<Error>, next: seq<real>)
    requires columns == |scales| <= |p.features|
    ensures error == PointError(p, columns)
    ensures error.None? ==> next == seq(columns, c requires 0 <= c < columns => Max(scales[c], p.features[c]))
  {
    next := scales;
    if !(p.elapsed > 0.0) { return Some(BadTime), next; }
    for c := 0 to columns
      invariant |next| == columns && forall j | 0 <= j < c :: p.features[j] >= 0.0
      invariant forall j | 0 <= j < columns :: next[j] == if j < c then Max(scales[j], p.features[j]) else scales[j]
    {
      if !(p.features[c] >= 0.0) { return Some(BadFeature), next; }
      next := next[c := Max(next[c], p.features[c])];
    }
    error := None;
  }

  method CheckTraining(training: seq<Point>, columns: nat) returns (error: Option<Error>, scales: seq<real>)
    requires Shaped(training) && columns <= MAX_COEFFICIENTS
    ensures error == Checked(training, columns)
    ensures error.None? ==> scales == Scales(training, columns)
  {
    scales := Zeros(columns);
    if |training| < columns { return Some(TooFewPoints), scales; }
    for i := 0 to |training|
      invariant FirstError(training[..i], columns).None? && scales == Scales(training[..i], columns)
    {
      assert training[..i + 1][..i] == training[..i];
      var e, next := CheckPoint(training[i], columns, scales);
      if e.Some? {
        FirstErrorStays(training, columns, i + 1);
        return e, scales;
      }
      scales := next;
    }
    assert training[..|training|] == training;
    for c := 0 to columns
      invariant forall j | 0 <= j < c :: Scale(training, j) != 0.0
    {
      assert scales[c] == Scale(training, c);
      if scales[c] == 0.0 { return Some(Unobservable), scales; }
    }
    error := None;
  }

  lemma {:induction false} FirstErrorStays(ps: seq<Point>, columns: nat, k: nat)
    requires Shaped(ps) && columns <= MAX_COEFFICIENTS && k <= |ps| && FirstError(ps[..k], columns).Some?
    ensures FirstError(ps, columns) == FirstError(ps[..k], columns)
    decreases |ps|
  {
    if k == |ps| {
      assert ps[..k] == ps;
    } else {
      assert ps[..|ps| - 1][..k] == ps[..k];
      FirstErrorStays(ps[..|ps| - 1], columns, k);
    }
  }

  lemma {:induction false} ReadyWhenChecked(ps: seq<Point>, columns: nat)
    requires Shaped(ps) && columns <= MAX_COEFFICIENTS && Checked(ps, columns).None?
    ensures Ready(ps, Scales(ps, columns))
  {
    GoodPoints(ps, columns);
    forall c | 0 <= c < columns ensures Scale(ps, c) > 0.0 { ScaleNonnegative(ps, c); }
  }

  /** Exactly the inputs that pass the checks: as many training points as columns, positive times,
      no negative feature, and in every column some positive one. */
  lemma CheckedIff(ps: seq<Point>, columns: nat)
    requires Shaped(ps) && columns <= MAX_COEFFICIENTS
    ensures Checked(ps, columns).None? <==>
            && |ps| >= columns
            && (forall i | 0 <= i < |ps| :: Sound(ps[i], columns)) && forall c | 0 <= c < columns :: Observed(ps, c)
  {
    FirstErrorIff(ps, columns);
    forall c | 0 <= c < columns ensures Scale(ps, c) == 0.0 <==> !Observed(ps, c) {
      ScaleNonnegative(ps, c);
      if Observed(ps, c) {
        var i :| 0 <= i < |ps| && ps[i].features[c] > 0.0;
        FeatureBelowScale(ps, c, i);
      }
    }
    CheckedBy(ps, columns);
  }

  predicate Sound(p: Point, columns: nat)
    requires columns <= |p.features|
  {
    p.elapsed > 0.0 && forall c | 0 <= c < columns :: p.features[c] >= 0.0
  }

  predicate Observed(ps: seq<Point>, c: nat)
    requires Shaped(ps) && c < MAX_COEFFICIENTS
  {
    exists i | 0 <= i < |ps| :: ps[i].features[c] > 0.0
  }

  lemma CheckedBy(ps: seq<Point>, columns: nat)
    requires Shaped(ps) && columns <= MAX_COEFFICIENTS
    ensures Checked(ps, columns).None? <==>
            |ps| >= columns && FirstError(ps, columns).None? && forall c | 0 <= c < columns :: Scale(ps, c) != 0.0
  {
    if |ps| >= columns && FirstError(ps, columns).None? {
      if forall c | 0 <= c < columns :: Scale(ps, c) != 0.0 {
        assert Checked(ps, columns).None?;
      } else {
        assert exists c | 0 <= c < columns :: Scale(ps, c) == 0.0;
      }
    }
  }

  lemma {:induction false} FirstErrorIff(ps: seq<Point>, columns: nat)
    requires Shaped(ps) && columns <= MAX_COEFFICIENTS
    ensures FirstError(ps, columns).None? <==>
            forall i | 0 <= i < |ps| :: Sound(ps[i], columns)
  {
    if ps != [] { FirstErrorIff(ps[..|ps| - 1], columns); }
  }

  lemma {:induction false} FeatureBelowScale(ps: seq<Point>, c: nat, i: nat)
    requires Shaped(ps) && c < MAX_COEFFICIENTS && i < |ps|
    ensures ps[i].features[c] <= Scale(ps, c)
  {
    if i < |ps| - 1 { FeatureBelowScale(ps[..|ps| - 1], c, i); }
  }

  lemma {:induction false} GoodPoints(ps: seq<Point>, columns: nat)
    requires Shaped(ps) && columns <= MAX_COEFFICIENTS && FirstError(ps, columns).None?
    ensures forall i | 0 <= i < |ps| :: ps[i].elapsed > 0.0 && GoodFeatures(ps[i], columns)
  {
    if ps != [] { GoodPoints(ps[..|ps| - 1], columns); }
  }

  lemma {:induction false} ScaleNonnegative(ps: seq<Point>, c: nat)
    requires Shaped(ps) && c < MAX_COEFFICIENTS
    ensures Scale(ps, c) >= 0.0
    ensures Scale(ps, c) > 0.0 ==> exists i | 0 <= i < |ps| :: ps[i].features[c] > 0.0
  {
    if ps != [] {
      var k := |ps| - 1;
      ScaleNonnegative(ps[..k], c);
      if Scale(ps[..k], c) > 0.0 {
        var i :| 0 <= i < k && ps[..k][i].features[c] > 0.0;
        assert ps[i].features[c] > 0.0;
      }
    }
  }

  /** Reads the columns out of a mask. */
  method ActiveColumns(mask: nat, columns: nat) returns (active: seq<nat>)
    ensures active == Active(mask, columns)
  {
    active := [];
    for c := 0 to columns
      invariant active == Active(mask, c)
    {
      if Bit(mask, c) { active := active + [c]; }
    }
  }

  /** Adds one point's row to the normal equations, in place. */
  method Accumulate(matrix: array<seq<real>>, right: array<real>, row: seq<real>)
    requires |row| <= matrix.Length && |row| <= right.Length && RowsOf(matrix[..|row|], |row|)
    modifies matrix, right
    ensures matrix[..|row|] == AddOuter(old(matrix[..|row|]), row)
    ensures right[..|row|] == AddRow(old(right[..|row|]), row)
  {
    var n := |row|;
    ghost var m, r := matrix[..n], right[..n];
    for left := 0 to n
      invariant forall i | 0 <= i < n :: matrix[i] == if i < left then AddScaled(m[i], row[i], row) else m[i]
      invariant forall i | 0 <= i < n :: right[i] == if i < left then r[i] + row[i] else r[i]
    {
      right[left] := right[left] + row[left];
      var sum := matrix[left];
      for k := 0 to n
        invariant |sum| == MAX_COEFFICIENTS
        invariant forall j | 0 <= j < |sum| :: sum[j] == if j < k then Raised(m[left][j], row[left], row[j]) else m[left][j]
        modifies {}
      {
        sum := sum[k := Raised(sum[k], row[left], row[k])];
      }
      assert sum == AddScaled(m[left], row[left], row);
      matrix[left] := sum;
    }
    assert matrix[..n] == AddOuter(m, row);
    assert right[..n] == AddRow(r, row);
  }

  /** Builds the normal equations of the active columns and solves them. */
  method SolveActive(training: seq<Point>, scales: seq<real>, active: seq<nat>) returns (sol: Option<seq<real>>)
    requires Ready(training, scales) && Within(active, |scales|) && |active| <= MAX_COEFFICIENTS
    ensures sol == LocalSolution(training, scales, active)
    ensures sol.Some? ==> |sol.value| == |active|
  {
    var n := |active|;
    ghost var rows := Rows(training, scales, active);
    var matrix := new seq<real>[MAX_COEFFICIENTS](_ => Zeros(MAX_COEFFICIENTS));
    var right := new real[MAX_COEFFICIENTS](_ => 0.0);
    var solution := new real[MAX_COEFFICIENTS](_ => 0.0);
    for i := 0 to |training|
      invariant matrix[..n] == Normal(rows[..i], n)
      invariant right[..n] == RightSide(rows[..i], n)
    {
      var row := Row(training[i], scales, active);
      assert rows[..i + 1][..i] == rows[..i] && rows[..i + 1][i] == row;
      Accumulate(matrix, right, row);
    }
    assert rows[..|training|] == rows;
    var ok := SolveLinear(matrix, right, n, solution);
    sol := if ok then Some(solution[..n]) else None;
  }

  /** Clamps and unscales a local solution, or finds it infeasible. */
  method ExpandSolution(sol: seq<real>, scales: seq<real>, active: seq<nat>) returns (r: Option<seq<real>>)
    requires |active| == |sol| && Within(active, |scales|) && forall c | 0 <= c < |scales| :: scales[c] > 0.0
    ensures r == if Feasible(sol) then Some(Expand(sol, scales, active)) else None
  {
    var candidate := Zeros(|scales|);
    for local := 0 to |active|
      invariant candidate == Place(Clamped(sol), scales, active, local)
      invariant forall l | 0 <= l < local :: sol[l] >= -SLACK
    {
      if sol[local] < -SLACK { return None; }
      candidate := candidate[active[local] := Ratio(Max(0.0, sol[local]), scales[active[local]])];
    }
    return Some(candidate);
  }

  method TryMask(training: seq<Point>, scales: seq<real>, mask: nat) returns (r: Option<seq<real>>)
    requires Ready(training, scales)
    ensures r == Candidate(training, scales, mask)
  {
    var active := ActiveColumns(mask, |scales|);
    var sol := SolveActive(training, scales, active);
    if sol.None? { return None; }
    r := ExpandSolution(sol.value, scales, active);
  }

  method MeasureError(training: seq<Point>, coefficients: seq<real>) returns (error: real)
    requires Shaped(training) && |coefficients| <= MAX_COEFFICIENTS && forall i | 0 <= i < |training| :: training[i].elapsed > 0.0
    ensures error == FitError(training, coefficients)
  {
    error := 0.0;
    for i := 0 to |training|
      invariant error == FitError(training[..i], coefficients)
    {
      assert training[..i + 1][..i] == training[..i];
      error := error + Squared(Relative(training[i], coefficients));
    }
    assert training[..|training|] == training;
  }

  /** The candidates of masks 1, 2, ... below `limit`. */
  function Candidates(ps: seq<Point>, scales: seq<real>, limit: nat): (r: seq<Option<seq<real>>>)
    requires Ready(ps, scales) && limit >= 1
    ensures |r| == limit - 1 && Sized(r, |scales|)
  {
    if limit == 1 then [] else Candidates(ps, scales, limit - 1) + [Candidate(ps, scales, limit - 1)]
  }

  predicate Sized(cands: seq<Option<seq<real>>>, columns: nat) {
    forall k | 0 <= k < |cands| && cands[k].Some? ::
      |cands[k].value| == columns && Nonnegative(cands[k].value)
  }

  lemma CandidatesNext(ps: seq<Point>, scales: seq<real>, limit: nat)
    requires Ready(ps, scales) && limit >= 1
    ensures Candidates(ps, scales, limit + 1) == Candidates(ps, scales, limit) + [Candidate(ps, scales, limit)]
  {
  }

  /** No candidate has a smaller error than candidate `k`, and no earlier one as small an error. */
  ghost predicate FirstBest(ps: seq<Point>, cands: seq<Option<seq<real>>>, columns: nat, k: nat)
    requires Ready(ps, []) && Sized(cands, columns) && columns <= MAX_COEFFICIENTS
  {
    && k < |cands| && cands[k].Some?
    && forall j | 0 <= j < |cands| && cands[j].Some? ::
         && FitError(ps, cands[k].value) <= FitError(ps, cands[j].value)
         && (j < k ==> FitError(ps, cands[k].value) < FitError(ps, cands[j].value))
  }

  /** `best` is the first of the candidates with the least error, or there is none. */
  ghost predicate BestOf(ps: seq<Point>, cands: seq<Option<seq<real>>>, columns: nat, best: Option<seq<real>>)
    requires Ready(ps, []) && Sized(cands, columns) && columns <= MAX_COEFFICIENTS
  {
    match best
    case None => forall k | 0 <= k < |cands| :: cands[k].None?
    case Some(x) => |x| == columns && Nonnegative(x) && exists k: nat :: FirstBest(ps, cands, columns, k) && cands[k] == best
  }

  lemma StaysBest(ps: seq<Point>, cands: seq<Option<seq<real>>>, columns: nat, k: nat, candidate: Option<seq<real>>)
    requires Ready(ps, []) && columns <= MAX_COEFFICIENTS && Sized(cands + [candidate], columns) && Sized(cands, columns)
    requires FirstBest(ps, cands, columns, k)
    requires candidate.Some? ==> |candidate.value| == columns && FitError(ps, cands[k].value) <= FitError(ps, candidate.value)
    ensures FirstBest(ps, cands + [candidate], columns, k) && (cands + [candidate])[k] == cands[k]
  {
  }

  lemma BecomesBest(ps: seq<Point>, cands: seq<Option<seq<real>>>, columns: nat, candidate: Option<seq<real>>)
    requires Ready(ps, []) && columns <= MAX_COEFFICIENTS && Sized(cands + [candidate], columns) && Sized(cands, columns)
    requires candidate.Some? && |candidate.value| == columns
    requires forall j | 0 <= j < |cands| && cands[j].Some? :: FitError(ps, candidate.value) < FitError(ps, cands[j].value)
    ensures FirstBest(ps, cands + [candidate], columns, |cands|) && (cands + [candidate])[|cands|] == candidate
  {
  }

  method KeepBetter(training: seq<Point>, ghost cands: seq<Option<seq<real>>>, ghost columns: nat,
                    best: Option<seq<real>>, bestError: real, candidate: Option<seq<real>>)
    returns (better: Option<seq<real>>, betterError: real)
    requires Ready(training, []) && columns <= MAX_COEFFICIENTS && Sized(cands + [candidate], columns) && Sized(cands, columns)
    requires BestOf(training, cands, columns, best) && (best.Some? ==> bestError == FitError(training, best.value))
    ensures BestOf(training, cands + [candidate], columns, better)
    ensures better.Some? ==> betterError == FitError(training, better.value)
  {
    better, betterError := best, bestError;
    assert (cands + [candidate])[|cands|] == candidate;
    if candidate.Some? {
      var error := MeasureError(training, candidate.value);
      if best.None? || error < bestError {
        better, betterError := candidate, error;
        BecomesBest(training, cands, columns, candidate);
        return;
      }
    }
    if best.Some? {
      ghost var k: nat :| FirstBest(training, cands, columns, k) && cands[k] == best;
      StaysBest(training, cands, columns, k, candidate);
    }
  }

  /** The fit. A refused input gets the error of the first failed check. Otherwise, with at
      least one column, a fit is always found: its coefficients are non-negative, it is the
      candidate of some column subset, and no subset's candidate has a smaller error. */
  method Fit(points: seq<Point>, columns: nat) returns (res: Result)
    requires Shaped(points) && columns <= MAX_COEFFICIENTS
    ensures Shaped(Training(points))
    ensures Checked(Training(points), columns).Some? ==> res == Err(Checked(Training(points), columns).value)
    ensures Checked(Training(points), columns).None? ==>
              var ps, scales := Training(points), Scales(Training(points), columns);
              && Ready(ps, scales)
              && (res == Err(RankDeficient) <==> columns == 0)
              && (columns > 0 ==> res.Ok? && BestOf(ps, Candidates(ps, scales, Pow2(columns)), columns, Some(res.coefficients)))
  {
    var training := SelectTraining(points);
    var error, scales := CheckTraining(training, columns);
    if error.Some? { return Err(error.value); }
    ReadyWhenChecked(training, columns);
    ghost var cands := Candidates(training, scales, Pow2(columns));
    SomeCandidate(training, columns);
    var best := FindBest(training, scales);
    return if best.None? then Err(RankDeficient) else Ok(best.value);
  }

  method FindBest(training: seq<Point>, scales: seq<real>) returns (best: Option<seq<real>>)
    requires Ready(training, scales)
    ensures BestOf(training, Candidates(training, scales, Pow2(|scales|)), |scales|, best)
  {
    best := BestUpTo(training, scales, Pow2(|scales|));
  }

  method BestUpTo(training: seq<Point>, scales: seq<real>, limit: nat) returns (best: Option<seq<real>>)
    requires Ready(training, scales) && limit >= 1
    ensures BestOf(training, Candidates(training, scales, limit), |scales|, best)
  {
    best := None;
    var bestError := 0.0;
    ghost var cands := Candidates(training, scales, 1);
    for mask := 1 to limit
      invariant cands == Candidates(training, scales, mask)
      invariant BestOf(training, cands, |scales|, best)
      invariant best.Some? ==> bestError == FitError(training, best.value)
    {
      var candidate := TryMask(training, scales, mask);
      CandidatesNext(training, scales, mask);
      best, bestError := KeepBetter(training, cands, |scales|, best, bestError, candidate);
      cands := cands + [candidate];
    }
  }

  // ----- a single column is always feasible -----

  lemma {:induction false} NoBits(c: nat)
    ensures !Bit(0, c)
  {
    if c > 0 { NoBits(c - 1); }
  }

  lemma {:induction false} OnlyFirstBit(columns: nat)
    requires columns > 0
    ensures Active(1, columns) == [0]
  {
    if columns == 1 {
      assert Active(1, 0) == [];
    } else {
      OnlyFirstBit(columns - 1);
      NoBits(columns - 2);
    }
  }

  lemma {:induction false} OneColumnSums(rows: seq<seq<real>>)
    requires forall i | 0 <= i < |rows| :: |rows[i]| == 1 && rows[i][0] >= 0.0
    ensures Normal(rows, 1)[0][0] >= 0.0 && RightSide(rows, 1)[0] >= 0.0
    ensures forall i | 0 <= i < |rows| && rows[i][0] > 0.0 :: Normal(rows, 1)[0][0] > 0.0
  {
    if rows != [] {
      var k := |rows| - 1;
      OneColumnSums(rows[..k]);
      var a, before := rows[k][0], Normal(rows[..k], 1)[0][0];
      SquareGrows(before, a);
      assert Normal(rows, 1)[0][0] == Raised(before, a, a);
      forall i | 0 <= i < |rows| && rows[i][0] > 0.0 ensures Normal(rows, 1)[0][0] > 0.0 {
        if i < k { assert rows[..k][i][0] > 0.0; }
      }
    }
  }

  lemma SquareGrows(before: real, a: real)
    requires before >= 0.0
    ensures Raised(before, a, a) >= before
    ensures a > 0.0 ==> Raised(before, a, a) > before
  {
    SquareSign(a);
    var q := Squared(a);
    assert Raised(before, a, a) == before + q;
  }

  lemma SquareSign(a: real)
    ensures Squared(a) >= 0.0 && (a > 0.0 ==> Squared(a) > 0.0)
  {
    if a > 0.0 { ProductPositive(a, a); }
  }

  lemma ProductPositive(a: real, b: real)
    requires a > 0.0 && b > 0.0
    ensures Times(a, b) > 0.0
  {
  }

  lemma SolveOne(m: seq<seq<real>>, r: seq<real>)
    requires RowsOf(m, 1) && |r| == 1 && m[0][0] > 0.0
    ensures Solve(m, r) == Some([Ratio(r[0], m[0][0])])
  {
    var a := m[0][0];
    assert RowMax(m[0], 0, 0.0) == 0.0;
    assert RowMax(m[0], 1, 0.0) == a;
    assert Largest(m, 0) == 0.0;
    assert Largest(m, 1) == a;
    assert a * TOLERANCE < a;
    assert Swap(m, 0, 0) == m && Swap(r, 0, 0) == r;
    assert StepRight(m, r, 0) == [Ratio(r[0], a)];
    assert Eliminate(StepRows(m, 0), StepRight(m, r, 0), 1, a * TOLERANCE) == Some(StepRight(m, r, 0));
    EliminateStep(m, r, 0, a * TOLERANCE);
  }

  lemma EntrySign(feature: real, scale: real, elapsed: real)
    requires scale > 0.0 && elapsed > 0.0 && feature >= 0.0
    ensures Entry(feature, scale, elapsed) >= 0.0 && (feature > 0.0 ==> Entry(feature, scale, elapsed) > 0.0)
  {
    var a, b := feature / scale, 1.0 / elapsed;
    assert b > 0.0;
    assert a >= 0.0 && (feature > 0.0 ==> a > 0.0);
    assert a * b >= 0.0;
    if a > 0.0 { assert a * b > 0.0; }
  }

  /** The subset holding just the first column always yields a candidate. */
  lemma FirstColumnFeasible(ps: seq<Point>, columns: nat)
    requires Shaped(ps) && 0 < columns <= MAX_COEFFICIENTS && Checked(ps, columns).None?
    ensures Ready(ps, Scales(ps, columns)) && Accepted(ps, Scales(ps, columns), 1)
    ensures Candidate(ps, Scales(ps, columns), 1).Some?
    ensures 1 < Pow2(columns)
  {
    var scales := Scales(ps, columns);
    ReadyWhenChecked(ps, columns);
    OnlyFirstBit(columns);
    FirstRowsPositive(ps, columns);
    OneColumnFeasible(Rows(ps, scales, [0]));
  }

  /** Among the candidates there is one exactly when there is a column. */
  lemma SomeCandidate(ps: seq<Point>, columns: nat)
    requires Shaped(ps) && columns <= MAX_COEFFICIENTS && Checked(ps, columns).None? && Ready(ps, Scales(ps, columns))
    ensures var cands := Candidates(ps, Scales(ps, columns), Pow2(columns));
            if columns == 0 then cands == [] else |cands| > 0 && cands[0].Some?
  {
    if columns > 0 {
      FirstColumnFeasible(ps, columns);
      CandidateAt(ps, Scales(ps, columns), Pow2(columns), 1);
    }
  }

  lemma FirstRowsPositive(ps: seq<Point>, columns: nat)
    requires Shaped(ps) && 0 < columns <= MAX_COEFFICIENTS && Checked(ps, columns).None?
    requires Ready(ps, Scales(ps, columns))
    ensures var rows := Rows(ps, Scales(ps, columns), [0]);
            && (forall i | 0 <= i < |rows| :: rows[i][0] >= 0.0)
            && (exists i | 0 <= i < |rows| :: rows[i][0] > 0.0)
  {
    var scales := Scales(ps, columns);
    var rows := Rows(ps, scales, [0]);
    GoodPoints(ps, columns);
    forall i | 0 <= i < |rows|
      ensures rows[i][0] >= 0.0 && (ps[i].features[0] > 0.0 ==> rows[i][0] > 0.0)
    {
      assert GoodFeatures(ps[i], columns);
      EntrySign(ps[i].features[0], scales[0], ps[i].elapsed);
    }
    ScaleNonnegative(ps, 0);
    assert scales[0] == Scale(ps, 0);
    var i :| 0 <= i < |ps| && ps[i].features[0] > 0.0;
    assert rows[i][0] > 0.0;
  }

  lemma OneColumnFeasible(rows: seq<seq<real>>)
    requires forall i | 0 <= i < |rows| :: |rows[i]| == 1 && rows[i][0] >= 0.0
    requires exists i | 0 <= i < |rows| :: rows[i][0] > 0.0
    ensures var sol := Solve(Normal(rows, 1), RightSide(rows, 1)); sol.Some? && |sol.value| == 1 && Nonnegative(sol.value)
  {
    OneColumnSums(rows);
    var a, b := Normal(rows, 1)[0][0], RightSide(rows, 1)[0];
    SolveOne(Normal(rows, 1), RightSide(rows, 1));
    assert Ratio(b, a) >= 0.0;
  }

  // ----- an accepted subset's solution is its least-squares optimum -----

  function Diff(x: seq<real>, y: seq<real>): seq<real>
    requires |x| == |y|
  {
    seq(|x|, i requires 0 <= i < |x| => x[i] - y[i])
  }

  lemma {:induction false} DotDiff(row: seq<real>, x: seq<real>, y: seq<real>)
    requires |x| == |y| <= |row|
    ensures Dot(row, x) == Dot(row, y) + Dot(row, Diff(x, y))
    decreases |x|
  {
    if x != [] {
      var k := |x| - 1;
      DotDiff(row, x[..k], y[..k]);
      assert Diff(x, y)[..k] == Diff(x[..k], y[..k]);
      TimesDiff(row[k], x[k], y[k]);
    }
  }

  lemma TimesDiff(a: real, x: real, y: real)
    ensures Times(a, x - y) == Times(a, x) - Times(a, y)
  {
  }

  /** One more term of a dot product whose left side was raised by `f` times a row. */
  lemma RaisedTerm(before: real, sum: real, f: real, dot: real, into: real, row: real, x: real)
    requires before == sum + Times(f, dot)
    ensures before + Times(Raised(into, f, row), x) == sum + Times(into, x) + Times(f, dot + Times(row, x))
  {
    calc {
      Times(Raised(into, f, row), x);
      (into + f * row) * x;
      into * x + f * row * x;
      into * x + f * (row * x);
    }
    assert f * (dot + row * x) == f * dot + f * (row * x);
  }

  lemma {:induction false} DotAddScaled(into: seq<real>, f: real, row: seq<real>, x: seq<real>)
    requires |x| <= |row| <= |into|
    ensures Dot(AddScaled(into, f, row), x) == Dot(into, x) + Times(f, Dot(row, x))
    decreases |x|
  {
    if x != [] {
      var k := |x| - 1;
      DotAddScaled(into, f, row, x[..k]);
      RaisedTerm(Dot(AddScaled(into, f, row), x[..k]), Dot(into, x[..k]), f, Dot(row, x[..k]), into[k], row[k], x[k]);
    }
  }

  lemma {:induction false} DotZeros(row: seq<real>, x: seq<real>)
    requires |x| <= |row| && forall j | 0 <= j < |x| :: row[j] == 0.0
    ensures Dot(row, x) == 0.0
    decreases |x|
  {
    if x != [] { DotZeros(row, x[..|x| - 1]); }
  }

  ghost predicate Width(rows: seq<seq<real>>, n: nat) { forall i | 0 <= i < |rows| :: |rows[i]| == n }

  /** Half the gradient of the squared error at `sol`. */
  function Gradient(rows: seq<seq<real>>, sol: seq<real>): (g: seq<real>)
    requires Width(rows, |sol|)
    ensures |g| == |sol|
  {
    if rows == [] then Zeros(|sol|)
    else
      var row := rows[|rows| - 1];
      AddScaled(Gradient(rows[..|rows| - 1], sol), Dot(row, sol) - 1.0, row)
  }

  /** How one more row changes gradient, normal equation and right-hand side alike. */
  lemma ResidualStep(g: real, n: real, t: real, dot: real, r: real)
    requires g == n - t
    ensures Raised(g, dot - 1.0, r) == (n + Times(r, dot)) - (t + r)
  {
    assert (dot - 1.0) * r == r * dot - r;
  }

  lemma NormalStep(rows: seq<seq<real>>, n: nat, i: nat)
    requires rows != [] && Width(rows, n) && i < n <= MAX_COEFFICIENTS
    ensures var k := |rows| - 1;
            && Normal(rows, n)[i] == AddScaled(Normal(rows[..k], n)[i], rows[k][i], rows[k])
            && RightSide(rows, n)[i] == RightSide(rows[..k], n)[i] + rows[k][i]
  {
  }

  lemma AddScaledAt(into: seq<real>, f: real, row: seq<real>, j: nat)
    requires j < |row| <= |into|
    ensures AddScaled(into, f, row)[j] == Raised(into[j], f, row[j])
  {
  }

  lemma {:induction false} GradientIsResidual(rows: seq<seq<real>>, sol: seq<real>, i: nat)
    requires Width(rows, |sol|) && i < |sol| <= MAX_COEFFICIENTS
    ensures Gradient(rows, sol)[i] == Dot(Normal(rows, |sol|)[i], sol) - RightSide(rows, |sol|)[i]
  {
    if rows == [] {
      DotZeros(Zeros(MAX_COEFFICIENTS), sol);
    } else {
      var k, n := |rows| - 1, |sol|;
      var row := rows[k];
      GradientIsResidual(rows[..k], sol, i);
      NormalStep(rows, n, i);
      AddScaledAt(Gradient(rows[..k], sol), Dot(row, sol) - 1.0, row, i);
      DotAddScaled(Normal(rows[..k], n)[i], row[i], row, sol);
      ResidualStep(Gradient(rows[..k], sol)[i], Dot(Normal(rows[..k], n)[i], sol), RightSide(rows[..k], n)[i], Dot(row, sol), row[i]);
    }
  }

  lemma GradientVanishes(rows: seq<seq<real>>, sol: seq<real>)
    requires Width(rows, |sol|) && |sol| <= MAX_COEFFICIENTS
    requires Solves(Normal(rows, |sol|), RightSide(rows, |sol|), sol)
    ensures forall i | 0 <= i < |sol| :: Gradient(rows, sol)[i] == 0.0
  {
    forall i | 0 <= i < |sol| ensures Gradient(rows, sol)[i] == 0.0 {
      GradientIsResidual(rows, sol, i);
    }
  }

  function LocalError(rows: seq<seq<real>>, x: seq<real>): real
    requires Width(rows, |x|)
  {
    if rows == [] then 0.0
    else LocalError(rows[..|rows| - 1], x) + Squared(Dot(rows[|rows| - 1], x) - 1.0)
  }

  /** How one more row changes the error at `x` and at the solution. */
  lemma ErrorStep(ex: real, es: real, g: real, a: real, d: real)
    requires ex >= es + 2.0 * g
    ensures ex + Squared(a + d - 1.0) >= es + Squared(a - 1.0) + 2.0 * (g + Times(a - 1.0, d))
  {
    var u := a - 1.0;
    SquareSign(d);
    assert (u + d) * (u + d) == u * u + 2.0 * (u * d) + d * d;
    assert Squared(u + d) == Squared(u) + 2.0 * Times(u, d) + Squared(d);
  }

  lemma {:induction false} ErrorAround(rows: seq<seq<real>>, sol: seq<real>, x: seq<real>)
    requires Width(rows, |sol|) && |x| == |sol|
    ensures LocalError(rows, x) >= LocalError(rows, sol) + 2.0 * Dot(Gradient(rows, sol), Diff(x, sol))
  {
    var d := Diff(x, sol);
    if rows == [] {
      DotZeros(Zeros(|sol|), d);
    } else {
      var k := |rows| - 1;
      var row := rows[k];
      ErrorAround(rows[..k], sol, x);
      DotDiff(row, x, sol);
      DotAddScaled(Gradient(rows[..k], sol), Dot(row, sol) - 1.0, row, d);
      ErrorStep(LocalError(rows[..k], x), LocalError(rows[..k], sol), Dot(Gradient(rows[..k], sol), d), Dot(row, sol), Dot(row, d));
    }
  }

  lemma LocalOptimum(rows: seq<seq<real>>, n: nat, x: seq<real>)
    requires Width(rows, n) && |x| == n <= MAX_COEFFICIENTS && SolveRows(rows, n).Some?
    ensures LocalError(rows, SolveRows(rows, n).value) <= LocalError(rows, x)
  {
    var sol := SolveRows(rows, n).value;
    SolveIsUnique(Normal(rows, n), RightSide(rows, n));
    GradientVanishes(rows, sol);
    DotZeros(Gradient(rows, sol), Diff(x, sol));
    ErrorAround(rows, sol, x);
  }

  /** The local unknowns that given coefficients stand for. */
  function Local(x: seq<real>, scales: seq<real>, active: seq<nat>): (r: seq<real>)
    requires |x| == |scales| && Within(active, |scales|)
    ensures |r| == |active|
  {
    seq(|active|, l requires 0 <= l < |active| => Times(x[active[l]], scales[active[l]]))
  }

  /** `x` is zero outside the columns of the mask. */
  ghost predicate Supported(x: seq<real>, mask: nat) {
    forall c | 0 <= c < |x| && !Bit(mask, c) :: x[c] == 0.0
  }

  /** One active column's term, scaled and unscaled again. */
  lemma OneTerm(local: real, sum: real, f: real, s: real, t: real, c: real)
    requires s > 0.0 && t > 0.0 && local == Ratio(sum, t)
    ensures local + Times(Entry(f, s, t), Times(c, s)) == Ratio(sum + Times(f, c), t)
  {
    var a := f / s;
    assert a * s == f;
    var b := 1.0 / t;
    calc {
      a * b * (c * s);
      a * s * (b * c);
      f * (b * c);
      f * c * b;
      f * c / t;
    }
    assert (sum + f * c) / t == sum / t + f * c / t;
  }

  /** One more point in both forms of the error. */
  lemma PointStep(before: real, local: real, sum: real, t: real)
    requires t > 0.0 && local == Ratio(sum, t)
    ensures before + Squared(Ratio(sum - t, t)) == before + Squared(local - 1.0)
  {
    DivideBySelf(t);
    assert (sum - t) / t == sum / t - t / t;
  }

  lemma TimesZero(a: real)
    ensures Times(a, 0.0) == 0.0
  {
  }

  lemma {:induction false} PredictionIsLocal(p: Point, scales: seq<real>, mask: nat, x: seq<real>, k: nat)
    requires |p.features| == MAX_COEFFICIENTS >= |scales| == |x| && p.elapsed > 0.0 && k <= |x|
    requires (forall c | 0 <= c < |scales| :: scales[c] > 0.0) && Supported(x, mask)
    ensures Within(Active(mask, k), |scales|)
    ensures Dot(Row(p, scales, Active(mask, k)), Local(x, scales, Active(mask, k))) == Ratio(Dot(p.features, x[..k]), p.elapsed)
  {
    if k > 0 {
      var c := k - 1;
      PredictionIsLocal(p, scales, mask, x, c);
      if Bit(mask, c) {
        ActivePrediction(p, scales, Active(mask, c), x, c);
      } else {
        IdlePrediction(p, x, c);
        assert Active(mask, k) == Active(mask, c);
      }
    }
  }

  lemma ActivePrediction(p: Point, scales: seq<real>, before: seq<nat>, x: seq<real>, c: nat)
    requires |p.features| == MAX_COEFFICIENTS >= |scales| == |x| && p.elapsed > 0.0 && c < |x|
    requires (forall c | 0 <= c < |scales| :: scales[c] > 0.0) && Within(before, |scales|)
    requires Dot(Row(p, scales, before), Local(x, scales, before)) == Ratio(Dot(p.features, x[..c]), p.elapsed)
    ensures Within(before + [c], |scales|)
    ensures Dot(Row(p, scales, before + [c]), Local(x, scales, before + [c])) == Ratio(Dot(p.features, x[..c + 1]), p.elapsed)
  {
    assert x[..c + 1][..c] == x[..c];
    ActiveTerm(p, scales, before, x, c);
    OneTerm(Dot(Row(p, scales, before), Local(x, scales, before)), Dot(p.features, x[..c]),
            p.features[c], scales[c], p.elapsed, x[c]);
  }

  lemma IdlePrediction(p: Point, x: seq<real>, c: nat)
    requires |p.features| >= |x| > c && x[c] == 0.0
    ensures Dot(p.features, x[..c + 1]) == Dot(p.features, x[..c])
  {
    assert x[..c + 1][..c] == x[..c];
    TimesZero(p.features[c]);
  }

  lemma ActiveTerm(p: Point, scales: seq<real>, before: seq<nat>, x: seq<real>, c: nat)
    requires |p.features| == MAX_COEFFICIENTS >= |scales| == |x| && p.elapsed > 0.0 && c < |x|
    requires (forall c | 0 <= c < |scales| :: scales[c] > 0.0) && Within(before, |scales|)
    ensures Within(before + [c], |scales|)
    ensures Dot(Row(p, scales, before + [c]), Local(x, scales, before + [c])) ==
            Dot(Row(p, scales, before), Local(x, scales, before))
            + Times(Entry(p.features[c], scales[c], p.elapsed), Times(x[c], scales[c]))
  {
    var row, u := Row(p, scales, before + [c]), Local(x, scales, before + [c]);
    assert u[..|before|] == Local(x, scales, before);
    DotPrefix(row, Row(p, scales, before), u[..|before|]);
  }

  lemma {:induction false} DotPrefix(a: seq<real>, b: seq<real>, x: seq<real>)
    requires |x| <= |b| && |x| <= |a| && forall j | 0 <= j < |x| :: a[j] == b[j]
    ensures Dot(a, x) == Dot(b, x)
    decreases |x|
  {
    if x != [] { DotPrefix(a, b, x[..|x| - 1]); }
  }

  lemma {:induction false} FitErrorIsLocal(ps: seq<Point>, scales: seq<real>, mask: nat, x: seq<real>)
    requires Ready(ps, scales) && |x| == |scales| && Supported(x, mask)
    ensures var active := Active(mask, |scales|);
            FitError(ps, x) == LocalError(Rows(ps, scales, active), Local(x, scales, active))
  {
    var active := Active(mask, |scales|);
    if ps != [] {
      var k := |ps| - 1;
      FitErrorIsLocal(ps[..k], scales, mask, x);
      assert Rows(ps, scales, active)[..k] == Rows(ps[..k], scales, active);
      PredictionIsLocal(ps[k], scales, mask, x, |x|);
      assert x[..|x|] == x;
      PointStep(FitError(ps[..k], x), Dot(Row(ps[k], scales, active), Local(x, scales, active)),
                Dot(ps[k].features, x), ps[k].elapsed);
    }
  }

  lemma {:induction false} PlaceAt(sol: seq<real>, scales: seq<real>, active: seq<nat>, k: nat)
    requires k <= |active| == |sol| && Within(active, |scales|) && (forall c | 0 <= c < |scales| :: scales[c] > 0.0)
    requires forall l, j | 0 <= l < j < |active| :: active[l] < active[j]
    ensures var r := Place(sol, scales, active, k);
            && (forall l | 0 <= l < k :: r[active[l]] == Ratio(sol[l], scales[active[l]]))
            && (forall c | 0 <= c < |scales| && c !in active :: r[c] == 0.0)
  {
    if k > 0 { PlaceAt(sol, scales, active, k - 1); }
  }

  lemma {:induction false} ActiveIsBits(mask: nat, columns: nat, c: nat)
    requires c < columns
    ensures c in Active(mask, columns) <==> Bit(mask, c)
  {
    if c < columns - 1 { ActiveIsBits(mask, columns - 1, c); }
  }

  lemma ScaleUndone(v: real, s: real)
    requires s > 0.0
    ensures Times(Ratio(v, s), s) == v
  {
  }

  lemma PlacedIsLocal(sol: seq<real>, scales: seq<real>, mask: nat)
    requires |Active(mask, |scales|)| == |sol| && (forall c | 0 <= c < |scales| :: scales[c] > 0.0)
    ensures var active := Active(mask, |scales|); var r := Place(sol, scales, active, |active|);
            Supported(r, mask) && Local(r, scales, active) == sol
  {
    var active := Active(mask, |scales|);
    var r := Place(sol, scales, active, |active|);
    PlaceAt(sol, scales, active, |active|);
    forall c | 0 <= c < |r| && !Bit(mask, c) ensures r[c] == 0.0 { ActiveIsBits(mask, |scales|, c); }
    forall l | 0 <= l < |sol| ensures Local(r, scales, active)[l] == sol[l] {
      ScaleUndone(sol[l], scales[active[l]]);
    }
  }

  /** The subset's system is accepted and its solution has no negative entry. */
  predicate Accepted(ps: seq<Point>, scales: seq<real>, mask: nat)
    requires Ready(ps, scales)
  {
    var sol := LocalSolution(ps, scales, Active(mask, |scales|));
    sol.Some? && Nonnegative(sol.value)
  }

  /** What the solver accepts of a subset is the best of all coefficient vectors on its columns. */
  lemma SubsetOptimum(ps: seq<Point>, scales: seq<real>, mask: nat, x: seq<real>)
    requires Ready(ps, scales) && |x| == |scales| && Supported(x, mask)
    requires LocalSolution(ps, scales, Active(mask, |scales|)).Some?
    ensures var active := Active(mask, |scales|);
            var z := Place(LocalSolution(ps, scales, active).value, scales, active, |active|);
            Supported(z, mask) && FitError(ps, z) <= FitError(ps, x)
  {
    var active := Active(mask, |scales|);
    var sol := LocalSolution(ps, scales, active).value;
    PlacedIsLocal(sol, scales, mask);
    FitErrorIsLocal(ps, scales, mask, Place(sol, scales, active, |active|));
    FitErrorIsLocal(ps, scales, mask, x);
    LocalOptimum(Rows(ps, scales, active), |active|, Local(x, scales, active));
  }

  /** An accepted subset's candidate has the least error of all coefficient vectors on those
      columns, negative ones included. */
  lemma CandidateIsOptimal(ps: seq<Point>, scales: seq<real>, mask: nat, x: seq<real>)
    requires Ready(ps, scales) && |x| == |scales| && Supported(x, mask) && Accepted(ps, scales, mask)
    ensures Candidate(ps, scales, mask).Some?
    ensures FitError(ps, Candidate(ps, scales, mask).value) <= FitError(ps, x)
  {
    SubsetOptimum(ps, scales, mask, x);
    var sol := LocalSolution(ps, scales, Active(mask, |scales|)).value;
    assert Clamped(sol) == sol;
  }

  lemma BestBeats(ps: seq<Point>, scales: seq<real>, best: seq<real>, mask: nat)
    requires Ready(ps, scales) && BestOf(ps, Candidates(ps, scales, Pow2(|scales|)), |scales|, Some(best))
    requires 1 <= mask < Pow2(|scales|) && Candidate(ps, scales, mask).Some?
    ensures FitError(ps, best) <= FitError(ps, Candidate(ps, scales, mask).value)
  {
    CandidateAt(ps, scales, Pow2(|scales|), mask);
    BestOfSome(ps, Candidates(ps, scales, Pow2(|scales|)), |scales|, best, mask - 1, Candidate(ps, scales, mask));
  }

  lemma BestOfSome(ps: seq<Point>, cands: seq<Option<seq<real>>>, columns: nat, best: seq<real>, k: nat,
                   candidate: Option<seq<real>>)
    requires Ready(ps, []) && Sized(cands, columns) && columns <= MAX_COEFFICIENTS
    requires BestOf(ps, cands, columns, Some(best)) && k < |cands| && cands[k] == candidate && candidate.Some?
    ensures |candidate.value| == columns && FitError(ps, best) <= FitError(ps, candidate.value)
  {
    BestAmong(ps, cands, columns, best, k);
  }

  lemma {:induction false} CandidateAt(ps: seq<Point>, scales: seq<real>, limit: nat, mask: nat)
    requires Ready(ps, scales) && 1 <= mask < limit
    ensures Candidates(ps, scales, limit)[mask - 1] == Candidate(ps, scales, mask)
  {
    if mask < limit - 1 { CandidateAt(ps, scales, limit - 1, mask); }
  }

  lemma BestAmong(ps: seq<Point>, cands: seq<Option<seq<real>>>, columns: nat, best: seq<real>, k: nat)
    requires Ready(ps, []) && Sized(cands, columns) && columns <= MAX_COEFFICIENTS
    requires BestOf(ps, cands, columns, Some(best)) && k < |cands| && cands[k].Some?
    ensures |cands[k].value| == columns && FitError(ps, best) <= FitError(ps, cands[k].value)
  {
    var j: nat :| FirstBest(ps, cands, columns, j) && cands[j] == Some(best);
  }

  /** So the fit is at least as good as any coefficients on any accepted subset of columns. */
  lemma FitIsOptimal(ps: seq<Point>, scales: seq<real>, best: seq<real>, mask: nat, x: seq<real>)
    requires Ready(ps, scales) && BestOf(ps, Candidates(ps, scales, Pow2(|scales|)), |scales|, Some(best))
    requires 1 <= mask < Pow2(|scales|) && |x| == |scales| && Supported(x, mask) && Accepted(ps, scales, mask)
    ensures FitError(ps, best) <= FitError(ps, x)
  {
    CandidateIsOptimal(ps, scales, mask, x);
    BestBeats(ps, scales, best, mask);
  }
}

/** The sliding evaluation windows of the perplexity run. */
module Windows {
  import opened Radix

  datatype Window = Window(inputBegin: nat, inputEnd: nat, targetBegin: nat, targetEnd: nat, firstTarget: nat)

  datatype Result = Ok(windows: seq<Window>) | InvalidArgument | LogicError

  const U32: nat := 0x1_0000_0000

  function Min(a: nat, b: nat): nat { if a < b then a else b }

  // ----- what a plan is -----

  /** A window's targets are the end of its input, behind at least one token of context. */
  predicate Sound(w: Window, context: nat) {
    && w.inputBegin < w.targetBegin < w.targetEnd == w.inputEnd && w.inputEnd - w.inputBegin <= context
    && w.firstTarget == w.targetBegin - w.inputBegin
  }

  /** Every window but the first is full and keeps at least `context - stride` tokens of context. */
  predicate Later(w: Window, context: nat, stride: nat) {
    w.inputEnd - w.inputBegin == context && w.firstTarget + stride >= context
  }

  /** Windows whose targets follow one another from position 1 to `end`. */
  ghost predicate Chain(ws: seq<Window>, end: nat, context: nat, stride: nat) {
    && ws != [] && ws[0].inputBegin == 0 && ws[0].targetBegin == 1 && ws[|ws| - 1].targetEnd == end
    && (forall i | 0 <= i < |ws| :: Sound(ws[i], context))
    && (forall i | 0 < i < |ws| :: ws[i].targetBegin == ws[i - 1].targetEnd && Later(ws[i], context, stride))
  }

  /** The windows still to come when `left` tokens are without a target. */
  function Remaining(left: nat, stride: nat): nat
    requires stride > 0
    decreases left
  {
    if left == 0 then 0 else 1 + Remaining(left - Min(left, stride), stride)
  }

  function CeilDiv(a: nat, b: nat): nat
    requires b > 0
  {
    (a + b - 1) / b
  }

  lemma CeilDivStep(a: nat, b: nat)
    requires b > 0 && a > b
    ensures CeilDiv(a, b) == 1 + CeilDiv(a - b, b)
  {
    assert (a + b - 1) == (a - b + b - 1) + b;
    DivStep(a - b + b - 1, b);
  }

  lemma CeilDivOne(a: nat, b: nat)
    requires 0 < a <= b
    ensures CeilDiv(a, b) == 1
  {
    DivStep(a - 1, b);
    assert (a - 1) / b == 0;
  }

  lemma {:induction false} RemainingIsCeil(left: nat, stride: nat)
    requires stride > 0
    ensures Remaining(left, stride) == CeilDiv(left, stride)
    decreases left
  {
    if left == 0 {
      assert (stride - 1) / stride == 0;
    } else if left <= stride {
      CeilDivOne(left, stride);
    } else {
      RemainingIsCeil(left - stride, stride);
      CeilDivStep(left, stride);
    }
  }

  /** The planner: refuses exactly the arguments the tool documents as wrong, never trips over
      its own consistency test, and otherwise chains windows up to the last token. */
  method PlanWindows(tokens: nat, context: nat, stride: nat) returns (r: Result)
    requires context < U32 && stride < U32
    ensures r.InvalidArgument? <==> tokens < 2 || context < 2 || stride == 0 || stride >= context
    ensures !r.LogicError?
    ensures r.Ok? ==> Chain(r.windows, tokens, context, stride)
    ensures r.Ok? ==> |r.windows| == 1 + CeilDiv(if tokens > context then tokens - context else 0, stride)
  {
    if tokens < 2 { return InvalidArgument; }
    if context < 2 || stride == 0 || stride >= context { return InvalidArgument; }
    var previousEnd := Min(tokens, context);
    var ws := [Window(0, previousEnd, 1, previousEnd, 1)];
    ghost var later := if tokens > context then tokens - context else 0;
    while previousEnd < tokens
      invariant Min(tokens, context) <= previousEnd <= tokens
      invariant Chain(ws, previousEnd, context, stride)
      invariant |ws| + Remaining(tokens - previousEnd, stride) == 1 + Remaining(later, stride)
    {
      var end := Min(tokens, previousEnd + stride);
      var begin := if end > context then end - context else 0;
      var localTarget := previousEnd - begin;
      if localTarget == 0 || localTarget >= end - begin || localTarget >= U32 { return LogicError; }
      ws := ws + [Window(begin, end, previousEnd, end, localTarget)];
      previousEnd := end;
    }
    RemainingIsCeil(later, stride);
    return Ok(ws);
  }

  // ----- the targets are a partition -----

  function Range(a: nat, b: nat): (r: seq<nat>)
    requires a <= b
    ensures |r| == b - a && forall i | 0 <= i < b - a :: r[i] == a + i
  {
    seq(b - a, i => a + i)
  }

  /** All scored positions, window by window. */
  function Targets(ws: seq<Window>): seq<nat>
    requires forall i | 0 <= i < |ws| :: ws[i].targetBegin <= ws[i].targetEnd
  {
    if ws == [] then []
    else Targets(ws[..|ws| - 1]) + Range(ws[|ws| - 1].targetBegin, ws[|ws| - 1].targetEnd)
  }

  /** Every position behind the first is scored exactly once, in order. */
  lemma {:induction false} TargetsPartition(ws: seq<Window>, end: nat, context: nat, stride: nat)
    requires Chain(ws, end, context, stride)
    ensures Targets(ws) == Range(1, end)
    decreases |ws|
  {
    var last := ws[|ws| - 1];
    var before := ws[..|ws| - 1];
    if before == [] {
      assert [] + Range(1, end) == Range(1, end);
    } else {
      assert ws[|ws| - 1].targetBegin == ws[|ws| - 2].targetEnd;
      assert Chain(before, last.targetBegin, context, stride);
      TargetsPartition(before, last.targetBegin, context, stride);
      assert Range(1, last.targetBegin) + Range(last.targetBegin, end) == Range(1, end);
    }
  }

  /** The number of scores the run announces before it starts is the number it makes. */
  lemma ScoredTokens(ws: seq<Window>, tokens: nat, context: nat, stride: nat)
    requires Chain(ws, tokens, context, stride)
    ensures |Targets(ws)| == tokens - 1
  {
    TargetsPartition(ws, tokens, context, stride);
  }
}

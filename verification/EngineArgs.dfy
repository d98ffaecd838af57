/** The engine's argument vector: parsed into known parameters and everything else, edited
    through the dashboard, and rendered back. */
module EngineArgs {
  import opened Wrappers
  import D = Decimal

  datatype Kind = Int | Text | Enum | Flag | IntOrAuto

  datatype Spec = Spec(flag: string, key: string, kind: Kind)

  datatype Param = Param(key: string, value: string)

  datatype Parsed = Parsed(artifact: string, params: seq<Param>, passthrough: seq<string>)

  predicate Dashed(token: string) { "--" <= token }

  /** What the parameter table guarantees. */
  predicate WellFormed(t: seq<Spec>) {
    && (forall i | 0 <= i < |t| :: Dashed(t[i].flag))
    && (forall i, j | 0 <= i < j < |t| :: t[i].flag != t[j].flag && t[i].key != t[j].key)
  }

  function FindFlag(t: seq<Spec>, flag: string): (r: Option<Spec>)
    ensures r.Some? ==> r.value in t && r.value.flag == flag
    ensures r.None? ==> forall i | 0 <= i < |t| :: t[i].flag != flag
  {
    if t == [] then None else if t[0].flag == flag then Some(t[0]) else FindFlag(t[1..], flag)
  }

  function FindKey(t: seq<Spec>, key: string): (r: Option<Spec>)
    ensures r.Some? ==> r.value in t && r.value.key == key
    ensures r.None? ==> forall i | 0 <= i < |t| :: t[i].key != key
  {
    if t == [] then None else if t[0].key == key then Some(t[0]) else FindKey(t[1..], key)
  }

  // ----- parsing -----

  function AddParams(ps: seq<Param>, p: Parsed): Parsed { p.(params := ps + p.params) }

  function AddPass(tokens: seq<string>, p: Parsed): Parsed { p.(passthrough := tokens + p.passthrough) }

  /** The parse of a token list; `taken` says whether the artifact has been seen already. */
  function Parse(t: seq<Spec>, args: seq<string>, taken: bool): Parsed {
    if args == [] then Parsed("", [], [])
    else
      var token, rest := args[0], args[1..];
      if !Dashed(token) then
        if taken then AddPass([token], Parse(t, rest, true)) else Parse(t, rest, true).(artifact := token)
      else
        var spec := FindFlag(t, token);
        if spec.None? then
          if rest != [] && !Dashed(rest[0]) then AddPass([token, rest[0]], Parse(t, rest[1..], taken))
          else AddPass([token], Parse(t, rest, taken))
        else if spec.value.kind.Flag? then AddParams([Param(spec.value.key, "true")], Parse(t, rest, taken))
        else if rest == [] then Parsed("", [], [])
        else AddParams([Param(spec.value.key, rest[0])], Parse(t, rest[1..], taken))
  }

  /** What has been collected so far, followed by the parse of the rest. */
  function Joined(sofar: Parsed, taken: bool, p: Parsed): Parsed {
    Parsed(if taken then sofar.artifact else p.artifact, sofar.params + p.params, sofar.passthrough + p.passthrough)
  }

  lemma JoinPass(sofar: Parsed, tokens: seq<string>, taken: bool, p: Parsed)
    ensures Joined(sofar.(passthrough := sofar.passthrough + tokens), taken, p)
         == Joined(sofar, taken, AddPass(tokens, p))
  {
    assert sofar.passthrough + tokens + p.passthrough == sofar.passthrough + (tokens + p.passthrough);
  }

  lemma JoinParams(sofar: Parsed, ps: seq<Param>, taken: bool, p: Parsed)
    ensures Joined(sofar.(params := sofar.params + ps), taken, p) == Joined(sofar, taken, AddParams(ps, p))
  {
    assert sofar.params + ps + p.params == sofar.params + (ps + p.params);
  }

  /** The loop body for a token that starts with dashes, at position `at`. */
  method TakeFlag(t: seq<Spec>, args: seq<string>, at: nat, sofar: Parsed, taken: bool) returns (out: Parsed, i: nat)
    requires at < |args| && Dashed(args[at])
    ensures at < i <= |args| && out.artifact == sofar.artifact
    ensures Joined(out, taken, Parse(t, args[i..], taken)) == Joined(sofar, taken, Parse(t, args[at..], taken))
  {
    var token := args[at];
    ghost var here, rest := args[at..], args[at + 1..];
    assert here[0] == token && here[1..] == rest;
    assert at + 1 < |args| ==> rest[0] == args[at + 1] && rest[1..] == args[at + 2..];
    i := at + 1;
    var spec := FindFlag(t, token);
    if spec.None? {
      var tokens := [token];
      if i < |args| && !Dashed(args[i]) {
        tokens := tokens + [args[i]];
        i := i + 1;
      }
      JoinPass(sofar, tokens, taken, Parse(t, args[i..], taken));
      out := sofar.(passthrough := sofar.passthrough + tokens);
    } else {
      var params := [];
      if spec.value.kind.Flag? {
        params := [Param(spec.value.key, "true")];
      } else if i < |args| {
        params := [Param(spec.value.key, args[i])];
        i := i + 1;
      }
      JoinParams(sofar, params, taken, Parse(t, args[i..], taken));
      out := sofar.(params := sofar.params + params);
    }
  }

  lemma Positional(t: seq<Spec>, args: seq<string>, at: nat, sofar: Parsed, taken: bool)
    requires at < |args| && !Dashed(args[at]) && (!taken ==> sofar.artifact == "")
    ensures var out := if taken then sofar.(passthrough := sofar.passthrough + [args[at]])
                       else sofar.(artifact := args[at]);
            Joined(out, true, Parse(t, args[at + 1..], true)) == Joined(sofar, taken, Parse(t, args[at..], taken))
  {
    assert args[at..][0] == args[at] && args[at..][1..] == args[at + 1..];
  }

  method ParseArgs(t: seq<Spec>, args: seq<string>) returns (out: Parsed)
    ensures out == Parse(t, args, false)
  {
    out := Parsed("", [], []);
    var taken, i := false, 0;
    while i < |args|
      invariant i <= |args| && (!taken ==> out.artifact == "")
      invariant Joined(out, taken, Parse(t, args[i..], taken)) == Parse(t, args, false)
    {
      if Dashed(args[i]) {
        out, i := TakeFlag(t, args, i, out, taken);
      } else {
        Positional(t, args, i, out, taken);
        if !taken {
          out, taken := out.(artifact := args[i]), true;
        } else {
          out := out.(passthrough := out.passthrough + [args[i]]);
        }
        i := i + 1;
      }
    }
    assert args[i..] == [];
  }

  // ----- rendering -----

  /** The first value given for a key. */
  function First(params: seq<Param>, key: string): Option<string> {
    if params == [] then None
    else if params[0].key == key then Some(params[0].value)
    else First(params[1..], key)
  }

  /** The value that rendering writes for a parameter, if it writes one. */
  function Kept(kind: Kind, value: Option<string>): Option<string> {
    if value.None? || (if kind.Flag? then value.value != "true" else value.value == "") then None else value
  }

  function RenderRow(spec: Spec, params: seq<Param>): seq<string> {
    match Kept(spec.kind, First(params, spec.key))
    case None => []
    case Some(v) => if spec.kind.Flag? then [spec.flag] else [spec.flag, v]
  }

  function RenderRows(t: seq<Spec>, params: seq<Param>, i: nat): seq<string>
    requires i <= |t|
    decreases |t| - i
  {
    if i == |t| then [] else RenderRow(t[i], params) + RenderRows(t, params, i + 1)
  }

  function Render(t: seq<Spec>, p: Parsed): seq<string> {
    (if p.artifact != "" then [p.artifact] else []) + RenderRows(t, p.params, 0) + p.passthrough
  }

  method AppendRow(spec: Spec, params: seq<Param>, before: seq<string>) returns (args: seq<string>)
    ensures args == before + RenderRow(spec, params)
  {
    args := before;
    var value := First(params, spec.key);
    if value.Some? {
      if spec.kind.Flag? {
        if value.value == "true" { args := args + [spec.flag]; }
      } else if value.value != "" {
        args := args + [spec.flag];
        args := args + [value.value];
      }
    }
  }

  method RenderArgs(t: seq<Spec>, p: Parsed) returns (args: seq<string>)
    ensures args == Render(t, p)
  {
    args := if p.artifact != "" then [p.artifact] else [];
    ghost var rows := args + RenderRows(t, p.params, 0);
    for i := 0 to |t|
      invariant args + RenderRows(t, p.params, i) == rows
    {
      ghost var row, more := RenderRow(t[i], p.params), RenderRows(t, p.params, i + 1);
      assert args + (row + more) == args + row + more;
      args := AppendRow(t[i], p.params, args);
    }
    for i := 0 to |p.passthrough|
      invariant args == rows + p.passthrough[..i]
    {
      args := args + [p.passthrough[i]];
    }
  }

  // ----- reading back what was rendered -----

  function CanonRow(spec: Spec, params: seq<Param>): seq<Param> {
    match Kept(spec.kind, First(params, spec.key))
    case None => []
    case Some(v) => [Param(spec.key, v)]
  }

  /** The parameters in table order, each once, without those that rendering leaves out. */
  function Canon(t: seq<Spec>, params: seq<Param>, i: nat): seq<Param>
    requires i <= |t|
    decreases |t| - i
  {
    if i == |t| then [] else CanonRow(t[i], params) + Canon(t, params, i + 1)
  }

  lemma {:induction false} FindFlagAt(t: seq<Spec>, i: nat)
    requires WellFormed(t) && i < |t|
    ensures FindFlag(t, t[i].flag) == Some(t[i])
  {
    if i > 0 {
      FindFlagAt(t[1..], i - 1);
    }
  }

  lemma {:induction false} FindKeyAt(t: seq<Spec>, i: nat)
    requires WellFormed(t) && i < |t|
    ensures FindKey(t, t[i].key) == Some(t[i])
  {
    if i > 0 {
      FindKeyAt(t[1..], i - 1);
    }
  }

  lemma RowReparsed(t: seq<Spec>, i: nat, params: seq<Param>, rest: seq<string>, taken: bool)
    requires WellFormed(t) && i < |t|
    ensures Parse(t, RenderRow(t[i], params) + rest, taken) == AddParams(CanonRow(t[i], params), Parse(t, rest, taken))
  {
    var row := RenderRow(t[i], params);
    FindFlagAt(t, i);
    if row == [] {
      assert row + rest == rest;
    } else if t[i].kind.Flag? {
      assert (row + rest)[0] == t[i].flag && (row + rest)[1..] == rest;
    } else {
      var all := row + rest;
      assert all[0] == t[i].flag && all[1..][0] == row[1] && all[1..][1..] == rest;
    }
  }

  lemma {:induction false} RowsReparsed(t: seq<Spec>, i: nat, params: seq<Param>, rest: seq<string>, taken: bool)
    requires WellFormed(t) && i <= |t|
    ensures Parse(t, RenderRows(t, params, i) + rest, taken) == AddParams(Canon(t, params, i), Parse(t, rest, taken))
    decreases |t| - i
  {
    if i < |t| {
      var row, more := RenderRow(t[i], params), RenderRows(t, params, i + 1);
      assert row + more + rest == row + (more + rest);
      RowReparsed(t, i, params, more + rest, taken);
      RowsReparsed(t, i + 1, params, rest, taken);
      var a, b, c := CanonRow(t[i], params), Canon(t, params, i + 1), Parse(t, rest, taken).params;
      assert a + (b + c) == (a + b) + c;
    } else {
      assert [] + rest == rest;
    }
  }

  /** Unrecognised tokens: no flag among them is in the table. */
  predicate Unknown(t: seq<Spec>, tokens: seq<string>) {
    forall i | 0 <= i < |tokens| :: Dashed(tokens[i]) ==> FindFlag(t, tokens[i]).None?
  }

  /** No token stands where a parse would take it for a positional argument. */
  predicate NoLoose(tokens: seq<string>) {
    forall i | 0 <= i < |tokens| :: Dashed(tokens[i]) || (i > 0 && Dashed(tokens[i - 1]))
  }

  lemma {:induction false} PassReparsed(t: seq<Spec>, tokens: seq<string>, taken: bool)
    requires Unknown(t, tokens) && (taken || NoLoose(tokens))
    ensures Parse(t, tokens, taken) == Parsed("", [], tokens)
  {
    if tokens != [] {
      var rest := tokens[1..];
      if !Dashed(tokens[0]) || rest == [] || Dashed(rest[0]) {
        PassReparsed(t, rest, taken);
        assert [tokens[0]] + rest == tokens;
      } else {
        PassReparsed(t, rest[1..], taken);
        assert [tokens[0], rest[0]] + rest[1..] == tokens;
      }
    }
  }

  /** A loose token is taken for the artifact and so is lost to the rest. */
  lemma {:induction false} LooseIsTaken(t: seq<Spec>, tokens: seq<string>)
    requires Unknown(t, tokens) && !NoLoose(tokens)
    ensures |Parse(t, tokens, false).passthrough| == |tokens| - 1 && Parse(t, tokens, false).params == []
    ensures !Dashed(tokens[0]) ==> Parse(t, tokens, false) == Parsed(tokens[0], [], tokens[1..])
  {
    var i :| 0 <= i < |tokens| && !Dashed(tokens[i]) && (i > 0 ==> !Dashed(tokens[i - 1]));
    var rest := tokens[1..];
    if !Dashed(tokens[0]) {
      PassReparsed(t, rest, true);
    } else if rest == [] || Dashed(rest[0]) {
      assert i > 0 && !Dashed(rest[i - 1]) && (i - 1 > 0 ==> !Dashed(rest[i - 2]));
      LooseIsTaken(t, rest);
    } else {
      var more := rest[1..];
      assert i > 1 && !Dashed(more[i - 2]) && (i - 2 > 0 ==> !Dashed(more[i - 3]));
      LooseIsTaken(t, more);
    }
  }

  lemma {:induction false} ParseIsClean(t: seq<Spec>, args: seq<string>, taken: bool)
    ensures var p := Parse(t, args, taken);
            Unknown(t, p.passthrough) && !Dashed(p.artifact) && (taken ==> p.artifact == "")
    decreases |args|
  {
    if args != [] {
      var rest := args[1..];
      ParseIsClean(t, rest, taken || !Dashed(args[0]));
      if rest != [] { ParseIsClean(t, rest[1..], taken); }
    }
  }

  /** No unrecognised token can take the artifact's place. */
  predicate KeepsPlace(p: Parsed) { p.artifact != "" || NoLoose(p.passthrough) }

  /** Reading a rendered parse back gives the artifact, the parameters in canonical form and
      every other token in order - exactly when the artifact is not empty or nothing else could
      be taken for it. */
  lemma Reparsed(t: seq<Spec>, p: Parsed)
    requires WellFormed(t) && Unknown(t, p.passthrough) && !Dashed(p.artifact)
    ensures Parse(t, Render(t, p), false) == Parsed(p.artifact, Canon(t, p.params, 0), p.passthrough)
       <==> KeepsPlace(p)
    ensures !KeepsPlace(p) ==> |Parse(t, Render(t, p), false).passthrough| == |p.passthrough| - 1
    ensures Parse(t, Render(t, p), false).params == Canon(t, p.params, 0)
  {
    var rows := RenderRows(t, p.params, 0);
    var tail := rows + p.passthrough;
    if p.artifact != "" {
      assert Render(t, p) == [p.artifact] + tail;
      assert ([p.artifact] + tail)[1..] == tail;
      RowsReparsed(t, 0, p.params, p.passthrough, true);
      PassReparsed(t, p.passthrough, true);
      assert Canon(t, p.params, 0) + [] == Canon(t, p.params, 0);
    } else {
      assert Render(t, p) == tail;
      RowsReparsed(t, 0, p.params, p.passthrough, false);
      if NoLoose(p.passthrough) {
        PassReparsed(t, p.passthrough, false);
        assert Canon(t, p.params, 0) + [] == Canon(t, p.params, 0);
      } else {
        LooseIsTaken(t, p.passthrough);
        assert Canon(t, p.params, 0) + [] == Canon(t, p.params, 0);
      }
    }
  }

  lemma {:induction false} FirstOfJoined(a: seq<Param>, b: seq<Param>, key: string)
    ensures First(a + b, key) == if First(a, key).Some? then First(a, key) else First(b, key)
  {
    if a == [] {
      assert a + b == b;
    } else {
      assert (a + b)[0] == a[0] && (a + b)[1..] == a[1..] + b;
      FirstOfJoined(a[1..], b, key);
    }
  }

  lemma {:induction false} CanonLacks(t: seq<Spec>, params: seq<Param>, i: nat, key: string)
    requires i <= |t| && forall j | i <= j < |t| :: t[j].key != key
    ensures First(Canon(t, params, i), key) == None
    decreases |t| - i
  {
    if i < |t| {
      CanonLacks(t, params, i + 1, key);
      FirstOfJoined(CanonRow(t[i], params), Canon(t, params, i + 1), key);
    }
  }

  /** The canonical form has, for every row, exactly the value rendering keeps. */
  lemma {:induction false} CanonHas(t: seq<Spec>, params: seq<Param>, i: nat, j: nat)
    requires WellFormed(t) && i <= j < |t|
    ensures First(Canon(t, params, i), t[j].key) == Kept(t[j].kind, First(params, t[j].key))
    decreases j - i
  {
    var key := t[j].key;
    FirstOfJoined(CanonRow(t[i], params), Canon(t, params, i + 1), key);
    if i < j {
      CanonHas(t, params, i + 1, j);
    } else {
      CanonLacks(t, params, i + 1, key);
    }
  }

  lemma {:induction false} CanonRenders(t: seq<Spec>, params: seq<Param>, i: nat)
    requires WellFormed(t) && i <= |t|
    ensures RenderRows(t, Canon(t, params, 0), i) == RenderRows(t, params, i)
    decreases |t| - i
  {
    if i < |t| {
      CanonHas(t, params, 0, i);
      CanonRenders(t, params, i + 1);
    }
  }

  /** An empty first argument is not rendered, and the next positional token takes its place. */
  lemma EmptyFirstArgument(t: seq<Spec>)
    ensures Parse(t, ["", "m"], false) == Parsed("", [], ["m"])
    ensures Render(t, Parsed("", [], ["m"])) == ["m"] && Parse(t, ["m"], false) == Parsed("m", [], [])
  {
    assert ["", "m"][1..] == ["m"] && ["m"][1..] == [];
    assert Parse(t, ["m"], true) == Parsed("", [], ["m"]);
    NoRows(t, 0);
  }

  lemma {:induction false} NoRows(t: seq<Spec>, i: nat)
    requires i <= |t|
    ensures RenderRows(t, [], i) == []
    decreases |t| - i
  {
    if i < |t| { NoRows(t, i + 1); }
  }

  lemma {:induction false} RowsStartDashed(t: seq<Spec>, params: seq<Param>, i: nat)
    requires WellFormed(t) && i <= |t| && RenderRows(t, params, i) != []
    ensures Dashed(RenderRows(t, params, i)[0])
    decreases |t| - i
  {
    if RenderRow(t[i], params) == [] { RowsStartDashed(t, params, i + 1); }
  }

  /** Nothing is rendered in front of the unrecognised tokens, and the first of them is positional. */
  predicate AlreadyInFront(t: seq<Spec>, p: Parsed) {
    && p.artifact == "" && RenderRows(t, p.params, 0) == [] && p.passthrough != []
    && p.passthrough[0] != "" && !Dashed(p.passthrough[0])
  }

  lemma SameFront(rows: seq<string>, pass: seq<string>, artifact: string, rest: seq<string>)
    requires pass != [] && |rest| == |pass| - 1 && !Dashed(artifact) && (rows != [] ==> Dashed(rows[0]))
    requires !Dashed(pass[0]) ==> artifact == pass[0] && rest == pass[1..]
    ensures (if artifact != "" then [artifact] else []) + rows + rest == rows + pass
       <==> rows == [] && pass[0] != "" && !Dashed(pass[0])
  {
    var again, once := (if artifact != "" then [artifact] else []) + rows + rest, rows + pass;
    assert artifact != "" ==> again[0] == artifact;
    assert once[0] == if rows != [] then rows[0] else pass[0];
    assert artifact == "" ==> |again| == |once| - 1;
    if rows == [] && !Dashed(pass[0]) { assert [pass[0]] + pass[1..] == pass; }
  }

  lemma LooseRendering(t: seq<Spec>, p: Parsed)
    requires WellFormed(t) && Unknown(t, p.passthrough) && !KeepsPlace(p)
    ensures var once := Render(t, p); Render(t, Parse(t, once, false)) == once <==> AlreadyInFront(t, p)
  {
    var rows, pass, canon := RenderRows(t, p.params, 0), p.passthrough, Canon(t, p.params, 0);
    var r := Parse(t, pass, false);
    assert Render(t, p) == rows + pass;
    RowsReparsed(t, 0, p.params, pass, false);
    LooseIsTaken(t, pass);
    ParseIsClean(t, pass, false);
    CanonRenders(t, p.params, 0);
    assert canon + [] == canon;
    assert Parse(t, Render(t, p), false) == Parsed(r.artifact, canon, r.passthrough);
    if rows != [] { RowsStartDashed(t, p.params, 0); }
    SameFront(rows, pass, r.artifact, r.passthrough);
  }

  /** Rendering a parse a second time changes nothing, if and only if the artifact keeps its place
      or what takes it stands in front already. */
  lemma RenderIsIdempotent(t: seq<Spec>, args: seq<string>)
    requires WellFormed(t)
    ensures var p := Parse(t, args, false); var once := Render(t, p);
            Render(t, Parse(t, once, false)) == once <==> KeepsPlace(p) || AlreadyInFront(t, p)
  {
    var p := Parse(t, args, false);
    ParseIsClean(t, args, false);
    if KeepsPlace(p) {
      Reparsed(t, p);
      CanonRenders(t, p.params, 0);
    } else {
      LooseRendering(t, p);
    }
  }

  /** Two empty arguments become one, and that one none. */
  lemma EmptyArgumentsVanish(t: seq<Spec>)
    ensures Render(t, Parse(t, ["", ""], false)) == [""] && Render(t, Parse(t, [""], false)) == []
  {
    assert ["", ""][1..] == [""] && [""][1..] == [];
    assert Parse(t, [""], true) == Parsed("", [], [""]);
    NoRows(t, 0);
  }

  // ----- editing -----

  function Erase(params: seq<Param>, key: string): seq<Param> {
    if params == [] then []
    else (if params[0].key == key then [] else [params[0]]) + Erase(params[1..], key)
  }

  predicate Removes(t: seq<Spec>, e: Param) {
    e.value == "" || (FindKey(t, e.key).Some? && FindKey(t, e.key).value.kind.Flag? && e.value == "false")
  }

  function Merged(t: seq<Spec>, params: seq<Param>, edits: seq<Param>): seq<Param>
    decreases |edits|
  {
    if edits == [] then params
    else
      var e := edits[0];
      Merged(t, Erase(params, e.key) + (if Removes(t, e) then [] else [e]), edits[1..])
  }

  method Merge(t: seq<Spec>, params: seq<Param>, edits: seq<Param>) returns (merged: seq<Param>)
    ensures merged == Merged(t, params, edits)
  {
    merged := params;
    for i := 0 to |edits|
      invariant Merged(t, merged, edits[i..]) == Merged(t, params, edits)
    {
      var e := edits[i];
      assert edits[i..][1..] == edits[i + 1..];
      merged := Erase(merged, e.key);
      if !Removes(t, e) { merged := merged + [e]; } else { assert merged + [] == merged; }
    }
    assert edits[|edits|..] == [];
  }

  lemma {:induction false} FirstAfterErase(params: seq<Param>, erased: string, key: string)
    ensures First(Erase(params, erased), key) == if key == erased then None else First(params, key)
  {
    if params != [] {
      FirstAfterErase(params[1..], erased, key);
      FirstOfJoined(if params[0].key == erased then [] else [params[0]], Erase(params[1..], erased), key);
    }
  }

  predicate DistinctKeys(edits: seq<Param>) {
    forall i, j | 0 <= i < j < |edits| :: edits[i].key != edits[j].key
  }

  lemma FirstAfterEdit(t: seq<Spec>, params: seq<Param>, e: Param, key: string)
    ensures First(Erase(params, e.key) + (if Removes(t, e) then [] else [e]), key)
         == if key != e.key then First(params, key) else if Removes(t, e) then None else Some(e.value)
  {
    FirstAfterErase(params, e.key, key);
    FirstOfJoined(Erase(params, e.key), if Removes(t, e) then [] else [e], key);
  }

  lemma {:induction false} UneditedKey(t: seq<Spec>, params: seq<Param>, edits: seq<Param>, key: string)
    requires forall i | 0 <= i < |edits| :: edits[i].key != key
    ensures First(Merged(t, params, edits), key) == First(params, key)
    decreases |edits|
  {
    if edits != [] {
      var e := edits[0];
      FirstAfterEdit(t, params, e, key);
      UneditedKey(t, Erase(params, e.key) + (if Removes(t, e) then [] else [e]), edits[1..], key);
    }
  }

  lemma {:induction false} EditedKey(t: seq<Spec>, params: seq<Param>, edits: seq<Param>, i: nat)
    requires DistinctKeys(edits) && i < |edits|
    ensures First(Merged(t, params, edits), edits[i].key) == if Removes(t, edits[i]) then None else Some(edits[i].value)
    decreases |edits|
  {
    var e := edits[0];
    var next := Erase(params, e.key) + (if Removes(t, e) then [] else [e]);
    if i > 0 {
      EditedKey(t, next, edits[1..], i - 1);
    } else {
      FirstAfterEdit(t, params, e, e.key);
      UneditedKey(t, next, edits[1..], e.key);
    }
  }

  // ----- the request that edits -----

  datatype Json = JString(text: string) | JBool(b: bool) | JInt(n: int) | JNull | JOther

  function ValueText(v: Json): Option<string> {
    match v
    case JString(s) => Some(s)
    case JBool(b) => Some(if b then "true" else "false")
    case JInt(n) => Some(D.IntText(n))
    case JNull => Some("")
    case JOther => None
  }

  function TextOr(o: Option<string>): string { if o.None? then "" else o.value }

  datatype Entry = Entry(key: string, value: Json)

  /** An entry the request is refused for: an unknown key, a value that is no scalar, or a
      switch that is neither true nor false. */
  predicate Bad(t: seq<Spec>, e: Entry) {
    var spec, text := FindKey(t, e.key), ValueText(e.value);
    spec.None? || text.None?
    || (spec.value.kind.Flag? && text.value != "" && text.value != "true" && text.value != "false")
  }

  function Edits(t: seq<Spec>, body: seq<Entry>): (r: seq<Param>)
    requires forall i | 0 <= i < |body| :: !Bad(t, body[i])
    ensures |r| == |body|
    ensures forall i | 0 <= i < |body| :: r[i] == Param(body[i].key, TextOr(ValueText(body[i].value)))
  {
    if body == [] then [] else [Param(body[0].key, TextOr(ValueText(body[0].value)))] + Edits(t, body[1..])
  }

  /** The new arguments, or a refusal that changes nothing; `refused` is the verdict of the range
      and combination checks. */
  function Patch(t: seq<Spec>, args: seq<string>, body: seq<Entry>, refused: bool): Option<seq<string>> {
    if refused || exists i | 0 <= i < |body| :: Bad(t, body[i]) then None
    else
      var p := Parse(t, args, false);
      Some(Render(t, p.(params := Merged(t, p.params, Edits(t, body)))))
  }

  predicate DistinctEntries(body: seq<Entry>) {
    forall i, j | 0 <= i < j < |body| :: body[i].key != body[j].key
  }

  /** The value an entry asks for, or none if it unsets the parameter. */
  function Asked(kind: Kind, value: Json): Option<string> {
    var text := ValueText(value);
    if text.None? || text.value == "" || (kind.Flag? && text.value == "false") then None else text
  }

  /** What a request asks of a row of the table, given the value it had. */
  function Wanted(kind: Kind, had: Option<string>, body: seq<Entry>, key: string): Option<string> {
    if body == [] then Kept(kind, had)
    else if body[0].key == key then Asked(kind, body[0].value)
    else Wanted(kind, had, body[1..], key)
  }

  lemma {:induction false} WantedUnedited(kind: Kind, had: Option<string>, body: seq<Entry>, key: string)
    requires forall i | 0 <= i < |body| :: body[i].key != key
    ensures Wanted(kind, had, body, key) == Kept(kind, had)
  {
    if body != [] { WantedUnedited(kind, had, body[1..], key); }
  }

  lemma {:induction false} WantedEdited(kind: Kind, had: Option<string>, body: seq<Entry>, i: nat)
    requires DistinctEntries(body) && i < |body|
    ensures Wanted(kind, had, body, body[i].key) == Asked(kind, body[i].value)
  {
    if i > 0 {
      assert body[0].key != body[i].key;
      WantedEdited(kind, had, body[1..], i - 1);
    }
  }

  lemma RowAfterEdit(t: seq<Spec>, params: seq<Param>, body: seq<Entry>, row: nat)
    requires WellFormed(t) && row < |t| && DistinctEntries(body)
    requires forall i | 0 <= i < |body| :: !Bad(t, body[i])
    ensures var key, kind := t[row].key, t[row].kind;
            Kept(kind, First(Merged(t, params, Edits(t, body)), key)) == Wanted(kind, First(params, key), body, key)
  {
    var key, kind, edits := t[row].key, t[row].kind, Edits(t, body);
    FindKeyAt(t, row);
    if i :| 0 <= i < |body| && body[i].key == key {
      EditedKey(t, params, edits, i);
      WantedEdited(kind, First(params, key), body, i);
    } else {
      UneditedKey(t, params, edits, key);
      WantedUnedited(kind, First(params, key), body, key);
    }
  }

  /** The artifact and the unrecognised tokens are as before, every edited parameter is as asked,
      and every other parameter has the value it had. */
  ghost predicate AsAsked(t: seq<Spec>, p: Parsed, q: Parsed, body: seq<Entry>) {
    && q.artifact == p.artifact && q.passthrough == p.passthrough
    && forall row | 0 <= row < |t| ::
         First(q.params, t[row].key) == Wanted(t[row].kind, First(p.params, t[row].key), body, t[row].key)
  }

  /** After an edit, reading the new arguments back gives exactly what was asked for, if and only if
      nothing can take the artifact's place. */
  lemma PatchThenParse(t: seq<Spec>, args: seq<string>, body: seq<Entry>, refused: bool)
    requires WellFormed(t) && DistinctEntries(body) && Patch(t, args, body, refused).Some?
    ensures var p, q := Parse(t, args, false), Parse(t, Patch(t, args, body, refused).value, false);
            AsAsked(t, p, q, body) <==> KeepsPlace(p)
  {
    var p := Parse(t, args, false);
    var merged := Merged(t, p.params, Edits(t, body));
    ParseIsClean(t, args, false);
    Reparsed(t, p.(params := merged));
    forall row | 0 <= row < |t|
      ensures First(Canon(t, merged, 0), t[row].key) == Wanted(t[row].kind, First(p.params, t[row].key), body, t[row].key)
    {
      CanonHas(t, merged, 0, row);
      RowAfterEdit(t, p.params, body, row);
    }
  }

  /** A text of decimal digits, with a minus sign in front if the number is negative. */
  predicate Spells(s: string, n: int) {
    if n < 0 then |s| > 1 && s[0] == '-' && D.AllDigits(s[1..]) && D.Value(s[1..]) == -n
    else s != [] && D.AllDigits(s) && D.Value(s) == n
  }

  /** What a value asks of a row, in terms of the request alone: true switches on, false off, null
      and the empty text unset, and any other text or number is the new value. */
  predicate Honoured(kind: Kind, value: Json, now: Option<string>) {
    match value
    case JBool(b) => if b then now == Some("true") else if kind.Flag? then now == None else now == Some("false")
    case JNull => now == None
    case JInt(n) => now.Some? && Spells(now.value, n)
    case JString(s) => if s == "" || (kind.Flag? && s == "false") then now == None else now == Some(s)
    case JOther => false
  }

  /** Values that no row, or no switch, can take. */
  predicate Unusable(kind: Kind, value: Json) {
    || value.JOther?
    || (kind.Flag? && value.JInt?)
    || (kind.Flag? && value.JString? && value.text != "" && value.text != "true" && value.text != "false")
  }

  lemma IntTextSpells(n: int)
    ensures Spells(D.IntText(n), n)
  {
    D.ValueOfText(if n < 0 then -n else n);
    if n < 0 { assert D.IntText(n)[1..] == D.Text(-n); }
  }

  lemma DigitsAreNoWord(n: int)
    ensures D.IntText(n) != "true" && D.IntText(n) != "false"
  {
    assert D.IntText(n)[0] == '-' || D.IsDigit(D.IntText(n)[0]);
  }

  lemma BadIff(t: seq<Spec>, e: Entry)
    ensures Bad(t, e) <==> FindKey(t, e.key).None? || Unusable(FindKey(t, e.key).value.kind, e.value)
  {
    if e.value.JInt? { DigitsAreNoWord(e.value.n); }
  }

  /** A request is refused exactly for an unknown key, an unusable value, or by the given verdict. */
  lemma RefusedIff(t: seq<Spec>, args: seq<string>, body: seq<Entry>, refused: bool)
    ensures Patch(t, args, body, refused).None? <==>
              refused || exists i | 0 <= i < |body| ::
                FindKey(t, body[i].key).None? || Unusable(FindKey(t, body[i].key).value.kind, body[i].value)
  {
    forall i | 0 <= i < |body|
      ensures Bad(t, body[i]) <==>
                FindKey(t, body[i].key).None? || Unusable(FindKey(t, body[i].key).value.kind, body[i].value)
    {
      BadIff(t, body[i]);
    }
  }

  lemma AskedIsHonoured(kind: Kind, value: Json)
    requires !Unusable(kind, value)
    ensures Honoured(kind, value, Asked(kind, value))
  {
    if value.JInt? {
      IntTextSpells(value.n);
      DigitsAreNoWord(value.n);
    }
  }

  /** A switch that is given at all is given as on. */
  lemma {:induction false} SwitchesAreOn(t: seq<Spec>, args: seq<string>, taken: bool, row: nat)
    requires WellFormed(t) && row < |t| && t[row].kind.Flag?
    ensures var had := First(Parse(t, args, taken).params, t[row].key); had == None || had == Some("true")
    decreases |args|
  {
    if args != [] {
      var rest, spec := args[1..], FindFlag(t, args[0]);
      SwitchesAreOn(t, rest, taken || !Dashed(args[0]), row);
      if rest != [] { SwitchesAreOn(t, rest[1..], taken, row); }
      if spec.Some? {
        var j :| 0 <= j < |t| && t[j] == spec.value;
        assert spec.value.key == t[row].key ==> j == row;
      }
    }
  }

  /** Every entry of an accepted request means, in the arguments read back, what it says; rows that
      no entry names keep their value, but an empty one is gone. */
  lemma EntriesAreHonoured(t: seq<Spec>, args: seq<string>, body: seq<Entry>, refused: bool, row: nat)
    requires WellFormed(t) && DistinctEntries(body) && Patch(t, args, body, refused).Some? && row < |t|
    ensures var now := First(Parse(t, Patch(t, args, body, refused).value, false).params, t[row].key);
            && (forall i | 0 <= i < |body| && body[i].key == t[row].key :: Honoured(t[row].kind, body[i].value, now))
            && ((forall i | 0 <= i < |body| :: body[i].key != t[row].key) ==>
                  var had := First(Parse(t, args, false).params, t[row].key); now == if had == Some("") then None else had)
  {
    var p, kind, key := Parse(t, args, false), t[row].kind, t[row].key;
    var merged := Merged(t, p.params, Edits(t, body));
    ParseIsClean(t, args, false);
    Reparsed(t, p.(params := merged));
    CanonHas(t, merged, 0, row);
    RowAfterEdit(t, p.params, body, row);
    forall i | 0 <= i < |body| && body[i].key == key
      ensures Honoured(kind, body[i].value, Wanted(kind, First(p.params, key), body, key))
    {
      FindKeyAt(t, row);
      BadIff(t, body[i]);
      WantedEdited(kind, First(p.params, key), body, i);
      AskedIsHonoured(kind, body[i].value);
    }
    if forall i | 0 <= i < |body| :: body[i].key != key {
      WantedUnedited(kind, First(p.params, key), body, key);
      if kind.Flag? { SwitchesAreOn(t, args, false, row); }
    }
  }

  // ----- the catalog -----

  datatype Model = Model(artifact: string, args: seq<string>)

  function ModelArgs(m: Model): seq<string> { [m.artifact] + m.args }

  /** The selected preset takes over the new arguments behind the artifact. */
  function Synced(m: Model, next: seq<string>): Model
    requires next != []
  {
    m.(args := next[1..])
  }

  predicate InSync(m: Model, next: seq<string>) { next != [] && ModelArgs(Synced(m, next)) == next }

  /** A path with dashes in front stays in front only as the first flag rendered: of the known ones
      if any is rendered, otherwise as one that is not known. */
  predicate StaysInFront(t: seq<Spec>, m: Model, p: Parsed, rows: seq<string>) {
    p.artifact == "" && if rows == [] then FindFlag(t, m.artifact).None? else rows[0] == m.artifact
  }

  lemma DashedInFront(t: seq<Spec>, m: Model, p: Parsed, rows: seq<string>)
    requires Dashed(m.artifact) && p == Parse(t, ModelArgs(m), false) && (rows != [] ==> Dashed(rows[0]))
    ensures var next := (if p.artifact != "" then [p.artifact] else []) + rows + p.passthrough;
            InSync(m, next) <==> StaysInFront(t, m, p, rows)
  {
    var next := (if p.artifact != "" then [p.artifact] else []) + rows + p.passthrough;
    ParseIsClean(t, ModelArgs(m), false);
    assert ModelArgs(m)[0] == m.artifact;
    assert FindFlag(t, m.artifact).None? ==> p.passthrough != [] && p.passthrough[0] == m.artifact;
    assert p.passthrough != [] && p.passthrough[0] == m.artifact ==> FindFlag(t, p.passthrough[0]).None?;
    if next != [] {
      assert next[0] == if p.artifact != "" then p.artifact else if rows != [] then rows[0] else p.passthrough[0];
      assert InSync(m, next) <==> next[0] == m.artifact by { assert [next[0]] + next[1..] == next; }
    }
  }

  /** A preset that was what is launched is, after the edit, again what is launched, if and only if
      its path does not start with two dashes or stays in front all the same. */
  lemma PresetStaysInSync(t: seq<Spec>, m: Model, body: seq<Entry>, refused: bool)
    requires WellFormed(t) && m.artifact != "" && Patch(t, ModelArgs(m), body, refused).Some?
    ensures var p, next := Parse(t, ModelArgs(m), false), Patch(t, ModelArgs(m), body, refused).value;
            InSync(m, next) <==>
              !Dashed(m.artifact) || StaysInFront(t, m, p, RenderRows(t, Merged(t, p.params, Edits(t, body)), 0))
  {
    var p := Parse(t, ModelArgs(m), false);
    var rows := RenderRows(t, Merged(t, p.params, Edits(t, body)), 0);
    assert ModelArgs(m)[0] == m.artifact;
    if Dashed(m.artifact) {
      if rows != [] { RowsStartDashed(t, Merged(t, p.params, Edits(t, body)), 0); }
      DashedInFront(t, m, p, rows);
    }
  }

  /** A catalog path that looks like a flag can lose its place at the front. */
  lemma FlagLikeArtifact(t: seq<Spec>)
    requires FindFlag(t, "--x").None?
    ensures var m := Model("--x", ["m", "n"]); var next := Patch(t, ModelArgs(m), [], false).value;
            next != [] && !InSync(m, next)
  {
    var args := ModelArgs(Model("--x", ["m", "n"]));
    assert args == ["--x", "m", "n"] && args[1..] == ["m", "n"] && args[1..][1..] == ["n"];
    assert Parse(t, ["n"], false).artifact == "n";
    assert Parse(t, args, false).artifact == "n";
  }

  /** A catalog path that is a flag of the table that takes a value leaves no arguments at all. */
  lemma ValueFlagArtifact(t: seq<Spec>, i: nat)
    requires WellFormed(t) && i < |t| && !t[i].kind.Flag?
    ensures Patch(t, ModelArgs(Model(t[i].flag, [])), [], false) == Some([])
  {
    var args := ModelArgs(Model(t[i].flag, []));
    assert args[0] == t[i].flag && args[1..] == [];
    FindFlagAt(t, i);
    NoRows(t, 0);
  }

  // ----- the table -----

  const CAPACITY: seq<Spec> := [
    Spec("--max-context", "max_context", Int),
    Spec("--kv-capacity", "kv_capacity", IntOrAuto),
    Spec("--max-concurrency", "max_concurrency", Int),
    Spec("--max-pending-requests", "max_pending_requests", Int),
    Spec("--pending-timeout-ms", "pending_timeout_ms", Int),
    Spec("--prefill-chunk", "prefill_chunk", Int)
  ]

  const MEMORY: seq<Spec> := [
    Spec("--desktop-reserve-gib", "desktop_reserve_gib", Int),
    Spec("--kv-dtype", "kv_dtype", Enum),
    Spec("--gdn-state-dtype", "gdn_state_dtype", Enum),
    Spec("--output-head-dtype", "output_head_dtype", Enum),
    Spec("--token-embedding-dtype", "token_embedding_dtype", Enum),
    Spec("--device-state-slots", "device_state_slots", Int),
    Spec("--host-state-slots", "host_state_slots", Int),
    Spec("--host-kv-mib", "host_kv_mib", Int),
    Spec("--max-private-continuations", "max_private_continuations", Int),
    Spec("--max-shared-prefixes", "max_shared_prefixes", Int)
  ]

  const FEATURES: seq<Spec> := [
    Spec("--vision", "vision", Flag),
    Spec("--spec", "spec", Enum),
    Spec("--draft-tokens", "draft_tokens", Int),
    Spec("--lm-head-draft", "lm_head_draft", Flag),
    Spec("--no-prefix-reuse", "no_prefix_reuse", Flag),
    Spec("--no-cuda-graph", "no_cuda_graph", Flag),
    Spec("--no-thinking", "no_thinking", Flag)
  ]

  const API: seq<Spec> := [
    Spec("--model-id", "model_id", Text),
    Spec("--cors", "cors", Flag),
    Spec("--default-max-tokens", "default_max_tokens", Int),
    Spec("--default-thinking-budget", "default_thinking_budget", Int),
    Spec("--log-stats-interval-ms", "log_stats_interval_ms", Int),
    Spec("--max-request-mib", "max_request_mib", Int)
  ]

  const SPECS: seq<Spec> := CAPACITY + MEMORY + FEATURES + API

  /** A number that tells the names of the table apart: length and last character but one. */
  function Mark(s: string): nat
    requires |s| >= 2
  {
    |s| * 256 + s[|s| - 2] as nat
  }

  predicate MarkedRow(spec: Spec, m: nat) {
    && Dashed(spec.flag) && |spec.key| >= 2
    && Mark(spec.key) == m && Mark(spec.flag) == m + 512
  }

  predicate Marked(t: seq<Spec>, ms: seq<nat>) {
    |t| == |ms| && forall i | 0 <= i < |t| :: MarkedRow(t[i], ms[i])
  }

  const CAPACITY_MARKS: seq<nat> := [2936, 2932, 3939, 5236, 4717, 3438]

  lemma CapacityMarks()
    ensures Marked(CAPACITY, CAPACITY_MARKS)
  {
  }

  const MEMORY_MARKS: seq<nat> := [4969, 2160, 3952, 4464, 5488, 4724, 4212, 2921, 6510, 4965]

  lemma MemoryMarks()
    ensures Marked(MEMORY, MEMORY_MARKS)
  {
  }

  const FEATURES_MARKS: seq<nat> := [1647, 1125, 3182, 3430, 3955, 3440, 2926]

  lemma FeaturesMarks()
    ensures Marked(FEATURES, FEATURES_MARKS)
  {
  }

  const API_MARKS: seq<nat> := [2153, 1138, 4718, 5989, 5485, 3945]

  lemma ApiMarks()
    ensures Marked(API, API_MARKS)
  {
  }

  const MARKS: seq<nat> := CAPACITY_MARKS + MEMORY_MARKS + FEATURES_MARKS + API_MARKS

  lemma MarksDiffer(ms: seq<nat>, i: nat, j: nat)
    requires ms == MARKS && i < j < |ms|
    ensures ms[i] != ms[j]
  {
  }

  lemma MarkedJoin(a: seq<Spec>, b: seq<Spec>, c: seq<Spec>, d: seq<Spec>,
                   ma: seq<nat>, mb: seq<nat>, mc: seq<nat>, md: seq<nat>)
    requires Marked(a, ma) && Marked(b, mb) && Marked(c, mc) && Marked(d, md)
    ensures Marked(a + b + c + d, ma + mb + mc + md)
  {
  }

  lemma SpecsMarked()
    ensures Marked(SPECS, MARKS)
  {
    CapacityMarks();
    MemoryMarks();
    FeaturesMarks();
    ApiMarks();
    MarkedJoin(CAPACITY, MEMORY, FEATURES, API,
               CAPACITY_MARKS, MEMORY_MARKS, FEATURES_MARKS, API_MARKS);
  }

  lemma MarkedIsWellFormed(t: seq<Spec>, ms: seq<nat>)
    requires Marked(t, ms) && forall i, j | 0 <= i < j < |ms| :: ms[i] != ms[j]
    ensures WellFormed(t)
  {
    forall i, j | 0 <= i < j < |t| ensures t[i].flag != t[j].flag && t[i].key != t[j].key {
      assert MarkedRow(t[i], ms[i]) && MarkedRow(t[j], ms[j]) && ms[i] != ms[j];
    }
  }

  /** The table of the source meets what the results above ask of one. */
  lemma SpecsAreWellFormed()
    ensures WellFormed(SPECS)
  {
    SpecsMarked();
    var ms := MARKS;
    forall i, j | 0 <= i < j < |ms| ensures ms[i] != ms[j] { MarksDiffer(ms, i, j); }
    MarkedIsWellFormed(SPECS, ms);
  }
}

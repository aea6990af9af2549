/** The context-pack configuration: its fields, their defaults, and `_load_config`'s reading of
    the indentation-structured configuration text. */
module PackConfig {
  import opened Wrappers
  import opened Text
  import opened ContextSignals

  /** `Config`: the ranking damping `lam`, the fusion weight `theta`, the signal weights, the
      recency half-life, the diversity coefficients, the candidate cap and the iteration limits. */
  datatype Config = Config(
    lam: real,
    theta: real,
    weights: Weights,
    halflife: int,
    muFile: real,
    muRole: real,
    limitCandidates: int,
    iters: int,
    tol: real)

  /** The value of every field whose key is missing. */
  const DefaultConfig := Config(0.85, 0.6, Weights(0.4, 0.25, 0.2, 0.1, 0.05), 45, 0.15, 0.1, 2000, 50, 0.000001)

  // ---------------------------------------------------------------------------
  // _parse_scalar

  /** What `_parse_scalar` returns: an `int` or a `float`. */
  datatype Scalar = SInt(i: int) | SReal(r: real)

  /** `_parse_scalar`: `true`/`false` in any case give 1/0; text holding `.`, `e` or `E` goes
      through `float`, anything else through `int` and, failing that, `float` (an empty text
      giving 0.0). `None` stands for the `ValueError` that escapes. */
  function ParseScalar(value: string): Option<Scalar> {
    var lower := Lower(value);
    if lower == "true" then Some(SInt(1))
    else if lower == "false" then Some(SInt(0))
    else if '.' in value || 'e' in value || 'E' in value then
      var f :- ParseFloat(value);
      Some(SReal(f))
    else
      match ParseInt(value)
      case Some(n) => Some(SInt(n))
      case None =>
        if value == "" then Some(SReal(0.0))
        else
          var f :- ParseFloat(value);
          Some(SReal(f))
  }

  /** An integer written by `str(int)` reads back as that integer. */
  lemma ParseScalarInt(n: int)
    ensures ParseScalar(IntToString(n)) == Some(SInt(n))
  {
    var s := IntToString(n);
    IntTextPlain(n);
    ParseIntOfIntToString(n);
    assert Lower(s) != "true" && Lower(s) != "false" by {
      assert IsAsciiDigit(s[|s| - 1]);
      assert LowerChar(s[|s| - 1]) == s[|s| - 1];
    }
  }

  lemma IntTextPlain(n: int)
    ensures var s := IntToString(n);
            s != [] && IsAsciiDigit(s[|s| - 1]) && '.' !in s && 'e' !in s && 'E' !in s
  {
    var d := NatToString(if n < 0 then -n else n);
    assert forall c :: c in d ==> IsAsciiDigit(c);
  }

  /** The words `true` and `false`, in any case, read as 1 and 0. */
  lemma ParseScalarBool(value: string)
    requires Lower(value) == "true" || Lower(value) == "false"
    ensures ParseScalar(value) == Some(SInt(if Lower(value) == "true" then 1 else 0))
  {
  }

  /** Text with a decimal point is always a float, never an integer. */
  lemma ParseScalarPoint(value: string)
    requires '.' in value && Lower(value) != "true" && Lower(value) != "false"
    ensures ParseScalar(value).Some? ==> ParseScalar(value).value.SReal?
    ensures ParseScalar(value).Some? <==> ParseFloat(value).Some?
  {
  }

  // ---------------------------------------------------------------------------
  // The nested payload

  /** A payload entry: a scalar, or a nested mapping opened by a `key:` line with no value. */
  datatype Value = Leaf(s: Scalar) | Table(entries: map<string, Value>)

  /** The entry reached by following `path` through nested mappings. */
  function At(t: map<string, Value>, path: seq<string>): Option<Value>
    requires path != []
    decreases |path|
  {
    if path[0] !in t then None
    else if |path| == 1 then Some(t[path[0]])
    else match t[path[0]]
      case Leaf(_) => None
      case Table(m) => At(m, path[1..])
  }

  /** Every key of `path` names a nested mapping. */
  predicate Resolves(t: map<string, Value>, path: seq<string>)
    decreases |path|
  {
    path == [] || (path[0] in t && t[path[0]].Table? && Resolves(t[path[0]].entries, path[1..]))
  }

  /** The mapping at `path`, or an empty one where the path breaks off. */
  function Child(t: map<string, Value>, key: string): map<string, Value> {
    if key in t && t[key].Table? then t[key].entries else map[]
  }

  /** `current[key] = v`, where `current` is the mapping at `path`. */
  function Put(t: map<string, Value>, path: seq<string>, key: string, v: Value): (r: map<string, Value>)
    ensures r.Keys == t.Keys + {if path == [] then key else path[0]}
    decreases |path|
  {
    if path == [] then t[key := v]
    else t[path[0] := Table(Put(Child(t, path[0]), path[1..], key, v))]
  }

  /** The entry just written is found where it was written. */
  lemma {:induction false} PutAt(t: map<string, Value>, path: seq<string>, key: string, v: Value)
    ensures At(Put(t, path, key, v), path + [key]) == Some(v)
    decreases |path|
  {
    if path != [] {
      PutAt(Child(t, path[0]), path[1..], key, v);
      assert (path + [key])[1..] == path[1..] + [key];
    }
  }

  /** Writing below `path` keeps `path` resolving, and a new mapping makes `path + [key]` resolve. */
  lemma {:induction false} PutResolves(t: map<string, Value>, path: seq<string>, key: string, v: Value)
    requires Resolves(t, path)
    ensures Resolves(Put(t, path, key, v), path)
    ensures v.Table? ==> Resolves(Put(t, path, key, v), path + [key])
    decreases |path|
  {
    if path != [] {
      PutResolves(Child(t, path[0]), path[1..], key, v);
      assert (path + [key])[1..] == path[1..] + [key];
    }
  }

  /** Nothing but the written branch changes: every other top-level entry keeps its value. */
  lemma PutOthers(t: map<string, Value>, path: seq<string>, key: string, v: Value, k: string)
    requires k in t && k != (if path == [] then key else path[0])
    ensures Put(t, path, key, v)[k] == t[k]
  {
  }

  // ---------------------------------------------------------------------------
  // _load_config's line loop

  /** One open section on the stack: the indentation of its `key:` line and its key. */
  datatype Frame = Frame(indent: nat, key: string)

  /** `payload` and the stack; the mapping `current` is the one at the stack's key path. */
  datatype LoadState = LoadState(payload: map<string, Value>, stack: seq<Frame>)

  const Initial := LoadState(map[], [])

  function Keys(stack: seq<Frame>): (r: seq<string>)
    ensures |r| == |stack| && forall i :: 0 <= i < |r| ==> r[i] == stack[i].key
  {
    seq(|stack|, i requires 0 <= i < |stack| => stack[i].key)
  }

  /** How many frames survive `while stack and indent <= stack[-1][0]: stack.pop()`. */
  function Kept(stack: seq<Frame>, indent: int): (r: nat)
    ensures r <= |stack|
    ensures r > 0 ==> stack[r - 1].indent < indent
    ensures forall j :: r <= j < |stack| ==> indent <= stack[j].indent
  {
    if stack != [] && indent <= stack[|stack| - 1].indent then Kept(stack[..|stack| - 1], indent)
    else |stack|
  }

  /** Indentation is the count of leading whitespace. */
  function Indent(raw: string): (r: nat)
    ensures r <= |raw|
  {
    |raw| - |LStrip(raw)|
  }

  /** Blank lines and comment lines are passed over. */
  predicate Skip(raw: string) {
    var stripped := Strip(raw);
    stripped == [] || stripped[0] == '#'
  }

  /** One line of `_load_config`'s loop. Blank and comment lines change nothing; any other line
      first pops the stack down to its indentation. */
  function Step(st: LoadState, raw: string): Option<LoadState> {
    if Skip(raw) then Some(st)
    else
      var indent := Indent(raw);
      Place(st.payload, st.stack[..Kept(st.stack, indent)], indent, Strip(raw))
  }

  /** The rest of the line after popping: without `:` it is dropped, otherwise its key is the
      text before the first `:` and its value the stripped text after it. */
  function Place(payload: map<string, Value>, stack: seq<Frame>, indent: nat, stripped: string): Option<LoadState> {
    var colon := Find(stripped, ':');
    if colon < 0 then Some(LoadState(payload, stack))
    else Assign(payload, stack, indent, stripped[..colon], Strip(stripped[colon + 1..]))
  }

  /** `key:` opens a new mapping under the current one and makes it current; `key: value` stores
      the parsed scalar in the current mapping. */
  function Assign(payload: map<string, Value>, stack: seq<Frame>, indent: nat, key: string, value: string): Option<LoadState> {
    if value == [] then
      Some(LoadState(Put(payload, Keys(stack), key, Table(map[])), stack + [Frame(indent, key)]))
    else
      var v :- ParseScalar(value);
      Some(LoadState(Put(payload, Keys(stack), key, Leaf(v)), stack))
  }

  /** The state after a run of lines, `None` once a scalar fails to parse. */
  function LoadLines(lines: seq<string>): Option<LoadState> {
    if lines == [] then Some(Initial)
    else
      var st :- LoadLines(lines[..|lines| - 1]);
      Step(st, lines[|lines| - 1])
  }

  /** The stack's indentations strictly increase and its keys lead to a nested mapping. */
  predicate WellFormed(st: LoadState) {
    (forall i, j :: 0 <= i < j < |st.stack| ==> st.stack[i].indent < st.stack[j].indent)
    && Resolves(st.payload, Keys(st.stack))
  }

  lemma {:induction false} ResolvesPrefix(t: map<string, Value>, path: seq<string>, n: nat)
    requires Resolves(t, path) && n <= |path|
    ensures Resolves(t, path[..n])
    decreases |path|
  {
    if n > 0 {
      ResolvesPrefix(t[path[0]].entries, path[1..], n - 1);
      assert path[..n][1..] == path[1..][..n - 1];
    }
  }

  /** Storing a line's entry keeps the state well formed once the stack is popped below the
      line's indentation. */
  lemma AssignKeeps(payload: map<string, Value>, stack: seq<Frame>, indent: nat, key: string, value: string)
    requires WellFormed(LoadState(payload, stack))
    requires stack != [] ==> stack[|stack| - 1].indent < indent
    ensures Assign(payload, stack, indent, key, value).Some? ==> WellFormed(Assign(payload, stack, indent, key, value).value)
  {
    if value == [] {
      var pushed := stack + [Frame(indent, key)];
      PutResolves(payload, Keys(stack), key, Table(map[]));
      assert Keys(pushed) == Keys(stack) + [key];
    } else if ParseScalar(value).Some? {
      PutResolves(payload, Keys(stack), key, Leaf(ParseScalar(value).value));
    }
  }

  /** Popping keeps the state well formed. */
  lemma PopKeeps(st: LoadState, k: nat)
    requires WellFormed(st) && k <= |st.stack|
    ensures WellFormed(LoadState(st.payload, st.stack[..k]))
  {
    assert Keys(st.stack[..k]) == Keys(st.stack)[..k];
    ResolvesPrefix(st.payload, Keys(st.stack), k);
  }

  /** Each line keeps the stack well formed. */
  lemma StepKeeps(st: LoadState, raw: string)
    requires WellFormed(st)
    ensures Step(st, raw).Some? ==> WellFormed(Step(st, raw).value)
  {
    if !Skip(raw) {
      var indent := Indent(raw);
      var stack := st.stack[..Kept(st.stack, indent)];
      PopKeeps(st, Kept(st.stack, indent));
      var stripped := Strip(raw);
      var colon := Find(stripped, ':');
      if colon >= 0 {
        AssignKeeps(st.payload, stack, indent, stripped[..colon], Strip(stripped[colon + 1..]));
      }
    }
  }

  /** Every state the loop reaches is well formed. */
  lemma {:induction false} LoadLinesWellFormed(lines: seq<string>)
    ensures LoadLines(lines).Some? ==> WellFormed(LoadLines(lines).value)
  {
    if lines != [] {
      LoadLinesWellFormed(lines[..|lines| - 1]);
      var before := LoadLines(lines[..|lines| - 1]);
      if before.Some? {
        StepKeeps(before.value, lines[|lines| - 1]);
      }
    }
  }

  /** A line at indentation 0 closes every open section: its entry goes to the top level. */
  lemma TopLevelLine(st: LoadState, raw: string)
    requires !Skip(raw) && Indent(raw) == 0
    ensures Step(st, raw) == Place(st.payload, [], 0, Strip(raw))
  {
    KeptAtZero(st.stack);
  }

  /** A top-level `key: value` overwrites `payload[key]` and leaves every other key alone. */
  lemma TopLevelAssign(payload: map<string, Value>, key: string, value: string)
    requires value != [] && ParseScalar(value).Some?
    ensures Assign(payload, [], 0, key, value) == Some(LoadState(payload[key := Leaf(ParseScalar(value).value)], []))
  {
    assert Keys([]) == [];
  }

  lemma {:induction false} KeptAtZero(stack: seq<Frame>)
    ensures Kept(stack, 0) == 0
  {
    if stack != [] {
      KeptAtZero(stack[..|stack| - 1]);
    }
  }

  // ---------------------------------------------------------------------------
  // Reading the fields

  /** `payload.get(name, {})` used as a mapping: a missing section reads as empty, a scalar in
      its place makes `.get` fail. */
  function Section(payload: map<string, Value>, name: string): Option<map<string, Value>> {
    if name !in payload then Some(map[])
    else match payload[name]
      case Table(m) => Some(m)
      case Leaf(_) => None
  }

  /** `float(section.get(key, default))`; a nested mapping makes `float` fail. */
  function RealField(sec: map<string, Value>, key: string, default: real): Option<real> {
    if key !in sec then Some(default)
    else match sec[key]
      case Leaf(SInt(n)) => Some(n as real)
      case Leaf(SReal(r)) => Some(r)
      case Table(_) => None
  }

  /** `int(section.get(key, default))`: a float truncates toward zero; a nested mapping fails. */
  function IntField(sec: map<string, Value>, key: string, default: int): (r: Option<int>)
    ensures key in sec && sec[key] == Leaf(SInt(default)) ==> r == Some(default)
  {
    if key !in sec then Some(default)
    else match sec[key]
      case Leaf(SInt(n)) => Some(n)
      case Leaf(SReal(x)) => Some(if x >= 0.0 then x.Floor else -((-x).Floor))
      case Table(_) => None
  }

  /** The `Config(...)` expression at the end of `_load_config`. */
  function ConfigOf(payload: map<string, Value>): Option<Config> {
    var pagerank :- Section(payload, "pagerank");
    var weights :- Section(payload, "weights");
    var diversity :- Section(payload, "diversity");
    var limits :- Section(payload, "limits");
    var lam :- RealField(pagerank, "lambda", 0.85);
    var theta :- RealField(pagerank, "theta", 0.6);
    var wIntent :- RealField(weights, "intent", 0.4);
    var wDiff :- RealField(weights, "diff", 0.25);
    var wRecency :- RealField(weights, "recency", 0.2);
    var wHub :- RealField(weights, "hub", 0.1);
    var wRole :- RealField(weights, "role", 0.05);
    var halflife :- IntField(payload, "recency_halflife_days", 45);
    var muFile :- RealField(diversity, "mu_file", 0.15);
    var muRole :- RealField(diversity, "mu_role", 0.1);
    var ncand :- IntField(limits, "ncand", 2000);
    var iters :- IntField(limits, "iters", 50);
    var tol :- RealField(limits, "tol", 0.000001);
    Some(Config(lam, theta, Weights(wIntent, wDiff, wRecency, wHub, wRole), halflife, muFile, muRole,
                ncand, iters, tol))
  }

  /** `_load_config` on the file's text; `None` stands for a raised exception. */
  function LoadConfigText(text: string): Option<Config> {
    var st :- LoadLines(SplitLines(text));
    ConfigOf(st.payload)
  }

  /** A payload naming none of the configuration's keys gives the defaults. */
  lemma DefaultsWhenAbsent(payload: map<string, Value>)
    requires forall k :: k in payload ==> k !in {"pagerank", "weights", "diversity", "limits", "recency_halflife_days"}
    ensures ConfigOf(payload) == Some(DefaultConfig)
  {
    assert "pagerank" !in payload && "weights" !in payload && "diversity" !in payload && "limits" !in payload;
    assert "recency_halflife_days" !in payload;
  }

  /** A configuration text of blank and comment lines only gives the defaults. */
  lemma {:induction false} CommentsOnly(lines: seq<string>)
    requires forall i :: 0 <= i < |lines| ==> Strip(lines[i]) == [] || Strip(lines[i])[0] == '#'
    ensures LoadLines(lines) == Some(Initial)
  {
    if lines != [] {
      CommentsOnly(lines[..|lines| - 1]);
    }
  }

  lemma EmptyText()
    ensures LoadConfigText("") == Some(DefaultConfig)
  {
    DefaultsWhenAbsent(map[]);
  }

  /** `_load_config`: the line loop with its stack of open sections, then the fields. */
  method LoadConfig(text: string) returns (r: Option<Config>)
    ensures r == LoadConfigText(text)
  {
    var lines := SplitLines(text);
    var payload: map<string, Value> := map[];
    var stack: seq<Frame> := [];
    var i := 0;
    while i < |lines|
      invariant 0 <= i <= |lines|
      invariant LoadLines(lines[..i]) == Some(LoadState(payload, stack))
    {
      LoadLinesStep(lines, i);
      var ok;
      ok, payload, stack := ReadLine(payload, stack, lines[i]);
      if !ok {
        NoneStays(lines, i + 1);
        return None;
      }
      i := i + 1;
    }
    assert lines[..i] == lines;
    r := ConfigOf(payload);
  }

  /** The body of the line loop: `ok` is false when `_parse_scalar` raises. */
  method ReadLine(payload0: map<string, Value>, stack0: seq<Frame>, raw: string)
    returns (ok: bool, payload: map<string, Value>, stack: seq<Frame>)
    ensures Step(LoadState(payload0, stack0), raw) == if ok then Some(LoadState(payload, stack)) else None
  {
    StepCases(LoadState(payload0, stack0), raw);
    var stripped := Strip(raw);
    if stripped == [] || stripped[0] == '#' {
      return true, payload0, stack0;
    }
    var indent := Indent(raw);
    var kept := PopFrames(stack0, indent);
    ok, payload, stack := PlaceLine(payload0, kept, indent, stripped);
  }

  /** Pops the open sections indented at or beyond `indent`. */
  method PopFrames(stack0: seq<Frame>, indent: nat) returns (stack: seq<Frame>)
    ensures stack == stack0[..Kept(stack0, indent)]
  {
    stack := stack0;
    while stack != [] && indent <= stack[|stack| - 1].indent
      invariant |stack| <= |stack0| && stack == stack0[..|stack|]
      invariant Kept(stack0, indent) == Kept(stack, indent)
    {
      stack := stack[..|stack| - 1];
    }
  }

  /** A non-blank line after the pops: a key opening a section, a key with a scalar, or no key. */
  method PlaceLine(payload0: map<string, Value>, stack0: seq<Frame>, indent: nat, stripped: string)
    returns (ok: bool, payload: map<string, Value>, stack: seq<Frame>)
    ensures Place(payload0, stack0, indent, stripped) == if ok then Some(LoadState(payload, stack)) else None
  {
    payload, stack := payload0, stack0;
    ok := true;
    PlaceCases(payload, stack, indent, stripped);
    var colon := Find(stripped, ':');
    if colon < 0 {
      return;
    }
    var key := stripped[..colon];
    var value := Strip(stripped[colon + 1..]);
    AssignCases(payload, stack, indent, key, value);
    if value == [] {
      payload := Put(payload, Keys(stack), key, Table(map[]));
      stack := stack + [Frame(indent, key)];
    } else {
      var v := ParseScalar(value);
      if v.None? {
        return false, payload, stack;
      }
      payload := Put(payload, Keys(stack), key, Leaf(v.value));
    }
  }

  lemma StepCases(st: LoadState, raw: string)
    ensures Skip(raw) ==> Step(st, raw) == Some(st)
    ensures !Skip(raw) ==> Step(st, raw) == Place(st.payload, st.stack[..Kept(st.stack, Indent(raw))], Indent(raw), Strip(raw))
  {
  }

  lemma PlaceCases(payload: map<string, Value>, stack: seq<Frame>, indent: nat, stripped: string)
    ensures Find(stripped, ':') < 0 ==> Place(payload, stack, indent, stripped) == Some(LoadState(payload, stack))
    ensures var colon := Find(stripped, ':');
            colon >= 0 ==>
              Place(payload, stack, indent, stripped)
              == Assign(payload, stack, indent, stripped[..colon], Strip(stripped[colon + 1..]))
  {
  }

  lemma AssignCases(payload: map<string, Value>, stack: seq<Frame>, indent: nat, key: string, value: string)
    ensures value == [] ==>
              Assign(payload, stack, indent, key, value)
              == Some(LoadState(Put(payload, Keys(stack), key, Table(map[])), stack + [Frame(indent, key)]))
    ensures value != [] && ParseScalar(value).None? ==> Assign(payload, stack, indent, key, value) == None
    ensures value != [] && ParseScalar(value).Some? ==>
              Assign(payload, stack, indent, key, value)
              == Some(LoadState(Put(payload, Keys(stack), key, Leaf(ParseScalar(value).value)), stack))
  {
  }

  lemma LoadLinesStep(lines: seq<string>, i: nat)
    requires i < |lines| && LoadLines(lines[..i]).Some?
    ensures LoadLines(lines[..i + 1]) == Step(LoadLines(lines[..i]).value, lines[i])
  {
    assert lines[..i + 1][..i] == lines[..i];
  }

  /** Once a line fails, so does every longer run of lines. */
  lemma {:induction false} NoneStays(lines: seq<string>, n: nat)
    requires n <= |lines| && LoadLines(lines[..n]) == None
    ensures LoadLines(lines) == None
    decreases |lines| - n
  {
    if n < |lines| {
      var next := lines[..n + 1];
      assert next[..|next| - 1] == lines[..n];
      assert LoadLines(next) == None;
      NoneStays(lines, n + 1);
    } else {
      assert lines[..n] == lines;
    }
  }
}

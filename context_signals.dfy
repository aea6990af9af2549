/** Per-node signals of the context-pack engine: keyword overlap with the intent, the tiered
    diff score, the role score, and their weighted combination. */
module ContextSignals {
  import opened Text
  import opened Json
  import Paths

  /** A graph node as decoded from the graph file. */
  type Node = seq<(string, Json)>

  /** `str(node.get(key, ""))`. */
  function TextField(node: Node, key: string): string {
    PyStr(GetOr(node, key, JStr("")))
  }

  /** Graph nodes carry an `id`; the ranking and neighbourhood code index `node["id"]` directly. */
  predicate HasId(node: Node) {
    Get(node, "id").Some?
  }

  /** `str(node.get("id"))`, which for a node with an id is also `str(node["id"])` and
      `str(node.get("id", ""))`. */
  function NodeId(node: Node): string {
    PyStr(GetOr(node, "id", JNull))
  }

  /** `_token_count`: the first of `tok`, `tokens`, `token_count` holding a number, truncated
      toward zero as `int()` does; 0 when none does. */
  function TokenCount(node: Node): int {
    TokenCountOf(node, ["tok", "tokens", "token_count"])
  }

  function TokenCountOf(node: Node, keys: seq<string>): int {
    if keys == [] then 0
    else
      var v := Get(node, keys[0]);
      if v.Some? && IsNumber(v.value) then PyInt(v.value) else TokenCountOf(node, keys[1..])
  }

  /** The key holds a number, as `isinstance(value, (int, float))` tests it. */
  predicate NumberAt(node: Node, key: string) {
    Get(node, key).Some? && IsNumber(Get(node, key).value)
  }

  /** The first key holding a number gives the count. */
  lemma {:induction false} TokenCountOfFirst(node: Node, keys: seq<string>, i: nat)
    requires i < |keys| && NumberAt(node, keys[i])
    requires forall j :: 0 <= j < i ==> !NumberAt(node, keys[j])
    ensures TokenCountOf(node, keys) == PyInt(Get(node, keys[i]).value)
  {
    if i > 0 {
      assert !NumberAt(node, keys[0]);
      assert keys[1..][i - 1] == keys[i];
      assert forall j :: 0 <= j < i - 1 ==> keys[1..][j] == keys[j + 1];
      TokenCountOfFirst(node, keys[1..], i - 1);
    }
  }

  /** With no key holding a number, the count is 0. */
  lemma {:induction false} TokenCountOfNone(node: Node, keys: seq<string>)
    requires forall j :: 0 <= j < |keys| ==> !NumberAt(node, keys[j])
    ensures TokenCountOf(node, keys) == 0
  {
    if keys != [] {
      assert !NumberAt(node, keys[0]);
      assert forall j :: 0 <= j < |keys| - 1 ==> keys[1..][j] == keys[j + 1];
      TokenCountOfNone(node, keys[1..]);
    }
  }

  /** `_token_count`: `tok` wins when it holds a number, then `tokens`, then `token_count`;
      a node with none of them holding a number counts 0 tokens. */
  lemma TokenCountKeys(node: Node)
    ensures NumberAt(node, "tok") ==> TokenCount(node) == PyInt(Get(node, "tok").value)
    ensures !NumberAt(node, "tok") && NumberAt(node, "tokens") ==> TokenCount(node) == PyInt(Get(node, "tokens").value)
    ensures !NumberAt(node, "tok") && !NumberAt(node, "tokens") && NumberAt(node, "token_count")
            ==> TokenCount(node) == PyInt(Get(node, "token_count").value)
    ensures !NumberAt(node, "tok") && !NumberAt(node, "tokens") && !NumberAt(node, "token_count")
            ==> TokenCount(node) == 0
  {
    var keys := ["tok", "tokens", "token_count"];
    assert keys[0] == "tok" && keys[1] == "tokens" && keys[2] == "token_count";
    if NumberAt(node, "tok") {
      TokenCountOfFirst(node, keys, 0);
    } else if NumberAt(node, "tokens") {
      TokenCountOfFirst(node, keys, 1);
    } else if NumberAt(node, "token_count") {
      TokenCountOfFirst(node, keys, 2);
    } else {
      TokenCountOfNone(node, keys);
    }
  }

  /** `int(value)` for a number: booleans count as 0 or 1, floats truncate toward zero. */
  function PyInt(v: Json): int
    requires IsNumber(v)
  {
    match v
    case JBool(b) => if b then 1 else 0
    case JInt(i) => i
    case JFloat(r, _) => if r >= 0.0 then r.Floor else -((-r).Floor)
  }

  lemma PyIntTruncates(r: real, text: string)
    ensures var n := PyInt(JFloat(r, text));
            (n as real) * r >= 0.0 && (if r >= 0.0 then n as real <= r < n as real + 1.0
                                      else n as real - 1.0 < r <= n as real)
  {
  }

  /** The node's role, `""` standing for `None`: a falsy role, or one printing as empty, is absent. */
  function RoleOf(node: Node): string {
    var v := GetOr(node, "role", JNull);
    if Truthy(v) then PyStr(v) else ""
  }

  // ---------------------------------------------------------------------------
  // Tokenising: re.findall("[a-z0-9]+", text.lower())

  predicate IsWordChar(c: char) { IsAsciiLower(c) || IsAsciiDigit(c) }

  predicate IsWord(w: string) {
    w != [] && forall i :: 0 <= i < |w| ==> IsWordChar(w[i])
  }

  /** The maximal runs of word characters in `s`, the first one extending the pending run `cur`. */
  function Runs(s: string, cur: string): (r: seq<string>)
    requires cur == [] || IsWord(cur)
    ensures forall i :: 0 <= i < |r| ==> IsWord(r[i])
  {
    if s == [] then (if cur == [] then [] else [cur])
    else if IsWordChar(s[0]) then Runs(s[1..], cur + [s[0]])
    else (if cur == [] then [] else [cur]) + Runs(s[1..], [])
  }

  /** `_tokenize`: the set of lower-cased alphanumeric runs. */
  function Tokenize(text: string): (r: set<string>)
    ensures forall w :: w in r ==> IsWord(w)
  {
    var runs := Runs(Lower(text), []);
    set w | w in runs
  }

  /** A non-word character ends the pending run and starts afresh. */
  lemma {:induction false} RunsAcrossSeparator(x: string, c: char, y: string, cur: string)
    requires cur == [] || IsWord(cur)
    requires !IsWordChar(c)
    ensures Runs(x + [c] + y, cur) == Runs(x, cur) + Runs(y, [])
  {
    if x == [] {
      assert x + [c] + y == [c] + y;
      assert ([c] + y)[1..] == y;
    } else {
      assert (x + [c] + y)[1..] == x[1..] + [c] + y;
      if IsWordChar(x[0]) {
        RunsAcrossSeparator(x[1..], c, y, cur + [x[0]]);
      } else {
        RunsAcrossSeparator(x[1..], c, y, []);
      }
    }
  }

  /** The tokens of `a + " " + b` are the tokens of `a` together with those of `b`;
      `_intent_match` relies on this when it tokenises heading and path together. */
  lemma TokenizeJoined(a: string, b: string)
    ensures Tokenize(a + " " + b) == Tokenize(a) + Tokenize(b)
  {
    LowerConcat(a, " " + b);
    LowerConcat(" ", b);
    assert Lower(" ") == [' '];
    assert Lower(a + " " + b) == Lower(a) + [' '] + Lower(b);
    RunsAcrossSeparator(Lower(a), ' ', Lower(b), []);
    var ra := Runs(Lower(a), []);
    var rb := Runs(Lower(b), []);
    assert forall w :: w in ra + rb <==> w in ra || w in rb;
  }

  // ---------------------------------------------------------------------------
  // Intent profile

  /** The roles an intent can name, in the order `_intent_profile` tries them. */
  const IntentRoles: seq<string> := ["impl", "ops", "spec", "risk"]

  /** The first of `roles` present in `tokens`, or `""` (Python's `None`). */
  function FirstRole(roles: seq<string>, tokens: set<string>): (r: string)
    requires forall i :: 0 <= i < |roles| ==> roles[i] != ""
    ensures r == "" <==> forall i :: 0 <= i < |roles| ==> roles[i] !in tokens
    ensures r != "" ==> r in roles && r in tokens
  {
    if roles == [] then ""
    else if roles[0] in tokens then roles[0]
    else FirstRole(roles[1..], tokens)
  }

  datatype Profile = Profile(raw: string, keywords: set<string>, role: string)

  /** The profile `_intent_profile` builds: the raw intent, its tokens and the first role word. */
  function IntentProfile(intent: string): Profile {
    var tokens := Tokenize(intent);
    Profile(intent, tokens, FirstRole(IntentRoles, tokens))
  }

  /** `_intent_profile`: the role loop stops at the first role word among the intent's tokens. */
  method ComputeIntentProfile(intent: string) returns (p: Profile)
    ensures p == IntentProfile(intent)
    ensures p.role == "" <==> forall i :: 0 <= i < |IntentRoles| ==> IntentRoles[i] !in Tokenize(intent)
    ensures p.role != "" ==> p.role in IntentRoles && p.role in Tokenize(intent)
  {
    var tokens := Tokenize(intent);
    ghost var expected := FirstRole(IntentRoles, tokens);
    var role := "";
    var k := 0;
    while k < |IntentRoles|
      invariant 0 <= k <= |IntentRoles|
      invariant role == "" ==> forall j :: 0 <= j < k ==> IntentRoles[j] !in tokens
      invariant role != "" ==> role == expected
      invariant role == "" ==> expected == FirstRole(IntentRoles[k..], tokens)
    {
      if IntentRoles[k] in tokens {
        role := IntentRoles[k];
        FirstRoleSkips(IntentRoles, k, tokens);
        break;
      }
      assert IntentRoles[k..][1..] == IntentRoles[k + 1..];
      k := k + 1;
    }
    if role == "" {
      assert FirstRole(IntentRoles[k..], tokens) == "";
    }
    p := Profile(intent, tokens, role);
  }

  /** When none of the first `k` roles is present, the answer is the first present among the rest. */
  lemma {:induction false} FirstRoleSkips(roles: seq<string>, k: nat, tokens: set<string>)
    requires forall i :: 0 <= i < |roles| ==> roles[i] != ""
    requires k < |roles| && roles[k] in tokens
    requires forall j :: 0 <= j < k ==> roles[j] !in tokens
    ensures FirstRole(roles, tokens) == roles[k]
  {
    if k > 0 {
      FirstRoleSkips(roles[1..], k - 1, tokens);
    }
  }

  // ---------------------------------------------------------------------------
  // Intent overlap: the Jaccard index of the intent's and the node's tokens

  /** `_intent_match` on the two token sets. */
  function Jaccard(tokens: set<string>, nodeTokens: set<string>): real {
    if tokens == {} then 0.0
    else if |tokens * nodeTokens| == 0 then 0.0
    else (|tokens * nodeTokens| as real) / (|tokens + nodeTokens| as real)
  }

  /** `_intent_match(tokens, node)`: the node's tokens come from its heading and path. */
  function IntentMatch(tokens: set<string>, node: Node): real {
    Jaccard(tokens, Tokenize(TextField(node, "heading") + " " + TextField(node, "path")))
  }

  lemma IntentMatchTokens(tokens: set<string>, node: Node)
    ensures IntentMatch(tokens, node)
         == Jaccard(tokens, Tokenize(TextField(node, "heading")) + Tokenize(TextField(node, "path")))
  {
    TokenizeJoined(TextField(node, "heading"), TextField(node, "path"));
  }

  /** A subset is no larger, and one of the same size is the whole set. */
  lemma SubsetCard<T>(x: set<T>, y: set<T>)
    requires x <= y
    ensures |x| <= |y|
    ensures |x| == |y| ==> x == y
  {
    var d := y - x;
    assert y == x + d && x * d == {};
    if |x| == |y| {
      assert |d| == 0;
      assert d == {};
    }
  }

  /** The overlap is a ratio in [0, 1]; it is 0 when the intent has no tokens or nothing is shared,
      and 1 exactly when both token sets are the same non-empty set. */
  lemma JaccardRange(a: set<string>, b: set<string>)
    ensures 0.0 <= Jaccard(a, b) <= 1.0
    ensures Jaccard(a, b) == 0.0 <==> a == {} || a * b == {}
    ensures Jaccard(a, b) == 1.0 <==> a != {} && a == b
  {
    if a != {} && a * b != {} {
      SubsetCard(a * b, a + b);
      assert |a * b| > 0;
      if |a * b| == |a + b| {
        assert a * b == a + b;
        assert a == b;
      }
      if a == b {
        assert a * b == a + b;
      }
    }
  }

  /** The overlap does not depend on which side is the intent, once both are non-empty. */
  lemma JaccardSymmetric(a: set<string>, b: set<string>)
    requires a != {} && b != {}
    ensures Jaccard(a, b) == Jaccard(b, a)
  {
    assert a * b == b * a && a + b == b + a;
  }

  // ---------------------------------------------------------------------------
  // Diff score

  /** `str(Path(item).parent)`; the parent of a bare file name is `.`. */
  function ParentText(item: string): string {
    Paths.ToString(Paths.Parent(Paths.FromString(item)))
  }

  /** Some changed path's parent directory is a string prefix of `path`. */
  predicate UnderChangedParent(path: string, diffPaths: set<string>) {
    exists item :: item in diffPaths && ParentText(item) != "" && StartsWith(path, ParentText(item))
  }

  /** `_diff_score`; roles use `""` for `None`. */
  function DiffScore(path: string, nodeRole: string, intentRole: string, diffPaths: set<string>): real {
    if path == "" then 0.0
    else if path in diffPaths then 1.0
    else if UnderChangedParent(path, diffPaths) then 0.7
    else if intentRole != "" && nodeRole != "" && intentRole == nodeRole then 0.4
    else 0.0
  }

  /** The diff score takes one of four tier values; a path's own change is the top tier. */
  lemma DiffScoreTiers(path: string, nodeRole: string, intentRole: string, diffPaths: set<string>)
    ensures var r := DiffScore(path, nodeRole, intentRole, diffPaths);
            r == 0.0 || r == 0.4 || r == 0.7 || r == 1.0
    ensures DiffScore(path, nodeRole, intentRole, diffPaths) == 1.0 <==> path != "" && path in diffPaths
    ensures DiffScore(path, nodeRole, intentRole, diffPaths) >= 0.7 <==>
              path != "" && (path in diffPaths || UnderChangedParent(path, diffPaths))
  {
  }

  /** More changed paths never lower a node's diff score. */
  lemma DiffScoreMonotone(path: string, nodeRole: string, intentRole: string, d1: set<string>, d2: set<string>)
    requires d1 <= d2
    ensures DiffScore(path, nodeRole, intentRole, d1) <= DiffScore(path, nodeRole, intentRole, d2)
  {
    if path != "" && path !in d2 && UnderChangedParent(path, d1) {
      var item :| item in d1 && ParentText(item) != "" && StartsWith(path, ParentText(item));
      assert item in d2;
    }
  }

  /** A changed bare file name has parent `.`, so it lifts every other path that starts with
      a dot to the 0.7 tier. */
  lemma BareFileParent(name: string, path: string, nodeRole: string, intentRole: string, diffPaths: set<string>)
    requires Paths.IsPart(name) && name in diffPaths
    requires StartsWith(path, ".") && path !in diffPaths
    ensures DiffScore(path, nodeRole, intentRole, diffPaths) == 0.7
  {
    BareParent(name);
  }

  lemma BareParent(name: string)
    requires Paths.IsPart(name)
    ensures ParentText(name) == "."
  {
    SplitWithout(name, '/');
    assert [name][1..] == [];
    assert name[0] != '/' by {
      assert name[0] in name;
    }
  }

  // ---------------------------------------------------------------------------
  // Role score and the combined base score

  /** The role branch of `_base_signals`; `""` stands for `None`. */
  function RoleScore(nodeRole: string, intentRole: string): real {
    if intentRole != "" && nodeRole == intentRole then 0.6
    else if intentRole != "" && nodeRole != "" && nodeRole != intentRole then 0.2
    else 0.4
  }

  /** Equal roles score 0.6, two different roles 0.2, and a missing role 0.4; so the score
      does not depend on which side is the node. */
  lemma RoleScoreCases(nodeRole: string, intentRole: string)
    ensures nodeRole != "" && nodeRole == intentRole ==> RoleScore(nodeRole, intentRole) == 0.6
    ensures nodeRole != "" && intentRole != "" && nodeRole != intentRole ==> RoleScore(nodeRole, intentRole) == 0.2
    ensures nodeRole == "" || intentRole == "" ==> RoleScore(nodeRole, intentRole) == 0.4
    ensures RoleScore(nodeRole, intentRole) == RoleScore(intentRole, nodeRole)
  {
  }

  datatype Signals = Signals(intent: real, diff: real, recency: real, hub: real, role: real)

  /** The five configured weights (`weights` in the configuration). */
  datatype Weights = Weights(intent: real, diff: real, recency: real, hub: real, role: real)

  /** `_base_signals`. Recency (an exponential decay of the node's age) and the hub score
      (a logarithm of its out-degree) are supplied by the caller. The intent match lies in
      [0, 1], the diff score is one of its four tiers, the role score one of its three values,
      and with recency and hub scores in [0, 1] every signal is in [0, 1]. */
  function BaseSignals(node: Node, profile: Profile, diffPaths: set<string>, hub: map<string, real>,
                       recency: real): (r: Signals)
    ensures r.role == RoleScore(RoleOf(node), profile.role)
    ensures r.intent == IntentMatch(profile.keywords, node)
    ensures InUnit(r.intent)
    ensures r.diff == 0.0 || r.diff == 0.4 || r.diff == 0.7 || r.diff == 1.0
    ensures r.diff == 1.0 <==> TextField(node, "path") != "" && TextField(node, "path") in diffPaths
    ensures r.role == 0.2 || r.role == 0.4 || r.role == 0.6
    ensures r.recency == recency
    ensures InUnit(recency) && (forall k :: k in hub ==> InUnit(hub[k])) ==> SignalsInUnit(r)
  {
    var nodeRole := RoleOf(node);
    var id := TextField(node, "id");
    JaccardRange(profile.keywords, Tokenize(TextField(node, "heading") + " " + TextField(node, "path")));
    DiffScoreTiers(TextField(node, "path"), nodeRole, profile.role, diffPaths);
    Signals(
      IntentMatch(profile.keywords, node),
      DiffScore(TextField(node, "path"), nodeRole, profile.role, diffPaths),
      recency,
      if id in hub then hub[id] else 0.0,
      RoleScore(nodeRole, profile.role))
  }

  /** `_combine_score`: the weighted sum over the configured signal names. */
  function CombineScore(s: Signals, w: Weights): real {
    s.intent * w.intent + s.diff * w.diff + s.recency * w.recency + s.hub * w.hub + s.role * w.role
  }

  predicate InUnit(x: real) { 0.0 <= x <= 1.0 }

  predicate SignalsInUnit(s: Signals) {
    InUnit(s.intent) && InUnit(s.diff) && InUnit(s.recency) && InUnit(s.hub) && InUnit(s.role)
  }

  predicate NonNegativeWeights(w: Weights) {
    w.intent >= 0.0 && w.diff >= 0.0 && w.recency >= 0.0 && w.hub >= 0.0 && w.role >= 0.0
  }

  function WeightTotal(w: Weights): real { w.intent + w.diff + w.recency + w.hub + w.role }

  /** Signals in [0, 1] under non-negative weights give a score between 0 and the weight total. */
  lemma CombineScoreBounds(s: Signals, w: Weights)
    requires SignalsInUnit(s) && NonNegativeWeights(w)
    ensures 0.0 <= CombineScore(s, w) <= WeightTotal(w)
  {
    var a, b, c, d, e := s.intent * w.intent, s.diff * w.diff, s.recency * w.recency,
                         s.hub * w.hub, s.role * w.role;
    ScaledBounds(s.intent, w.intent);
    ScaledBounds(s.diff, w.diff);
    ScaledBounds(s.recency, w.recency);
    ScaledBounds(s.hub, w.hub);
    ScaledBounds(s.role, w.role);
    SumBounds(a, b, c, d, e, w);
  }

  lemma SumBounds(a: real, b: real, c: real, d: real, e: real, w: Weights)
    requires 0.0 <= a <= w.intent && 0.0 <= b <= w.diff && 0.0 <= c <= w.recency
    requires 0.0 <= d <= w.hub && 0.0 <= e <= w.role
    ensures 0.0 <= a + b + c + d + e <= WeightTotal(w)
  {
  }

  lemma ScaledBounds(x: real, y: real)
    requires InUnit(x) && y >= 0.0
    ensures 0.0 <= x * y <= y
  {
    assert y - x * y == (1.0 - x) * y;
  }

  /** Raising any one signal never lowers the score under non-negative weights. */
  lemma CombineScoreMonotone(s: Signals, t: Signals, w: Weights)
    requires NonNegativeWeights(w)
    requires s.intent <= t.intent && s.diff <= t.diff && s.recency <= t.recency
    requires s.hub <= t.hub && s.role <= t.role
    ensures CombineScore(s, w) <= CombineScore(t, w)
  {
    assert s.intent * w.intent <= t.intent * w.intent;
    assert s.diff * w.diff <= t.diff * w.diff;
    assert s.recency * w.recency <= t.recency * w.recency;
    assert s.hub * w.hub <= t.hub * w.hub;
    assert s.role * w.role <= t.role * w.role;
  }
}

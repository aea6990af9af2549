/** The body of `generate_pack` around the selection loop: per-node signals and base scores, the
    optional personalised ranking, score fusion, seeds and candidates, the sorted and capped
    candidate list, and the pack metrics; and `_parse_budget`. */
module ContextPack {
  import opened Wrappers
  import opened Text
  import opened Json
  import opened ContextSignals
  import Neighbourhood
  import Ppr
  import Packer
  import opened PackConfig

  // ---------------------------------------------------------------------------
  // _parse_budget

  /** `_parse_budget`: trimmed and lower-cased; a trailing `k` multiplies the `float` before it by
      1000 and truncates, anything else goes through `int`. `None` stands for the `ValueError`. */
  function ParseBudget(raw: string): Option<int> {
    BudgetOf(Lower(Strip(raw)))
  }

  function BudgetOf(cleaned: string): Option<int> {
    if EndsWith(cleaned, "k") then
      var f := ParseFloat(cleaned[..|cleaned| - 1]);
      if f.Some? then Some(PyInt(JFloat(f.value * 1000.0, ""))) else None
    else ParseInt(cleaned)
  }

  lemma LowerDigits(s: string)
    requires forall i :: 0 <= i < |s| ==> !IsAsciiUpper(s[i])
    ensures Lower(s) == s
  {
  }

  lemma IntTextShape(n: int)
    ensures var s := IntToString(n);
            s != [] && !IsSpace(s[0]) && IsAsciiDigit(s[|s| - 1])
            && forall i :: 0 <= i < |s| ==> !IsAsciiUpper(s[i]) && !IsSpace(s[i])
  {
    var d := NatToString(if n < 0 then -n else n);
    assert forall i :: 0 <= i < |d| ==> IsAsciiDigit(d[i]);
  }

  /** A plain integer budget reads back as itself. */
  lemma ParseBudgetPlain(n: int)
    ensures ParseBudget(IntToString(n)) == Some(n)
  {
    var s := IntToString(n);
    IntTextShape(n);
    StripNoSpaceEnds(s);
    LowerDigits(s);
    assert !EndsWith(s, "k");
    ParseIntOfIntToString(n);
  }

  /** `"<n>k"`, in either case and with surrounding spaces, is `n * 1000`. */
  lemma ParseBudgetThousands(n: int, k: char)
    requires k == 'k' || k == 'K'
    ensures ParseBudget(" " + IntToString(n) + [k] + " ") == Some(n * 1000)
  {
    ThousandsCleaned(n, k);
    BudgetOfThousands(n);
  }

  lemma BudgetOfThousands(n: int)
    ensures BudgetOf(IntToString(n) + "k") == Some(n * 1000)
  {
    var c := IntToString(n) + "k";
    assert EndsWith(c, "k");
    ThousandsFloat(n);
    ThousandsValue(n);
  }

  lemma ThousandsCleaned(n: int, k: char)
    requires k == 'k' || k == 'K'
    ensures Lower(Strip(" " + IntToString(n) + [k] + " ")) == IntToString(n) + "k"
    ensures EndsWith(IntToString(n) + "k", "k")
  {
    var s := IntToString(n);
    IntTextShape(n);
    assert " " + s + [k] + " " == " " + (s + [k]) + " ";
    StripPadded(s + [k]);
    CleanedThousands(n, k);
  }

  lemma ThousandsFloat(n: int)
    ensures var c := IntToString(n) + "k"; ParseFloat(c[..|c| - 1]) == Some(n as real)
  {
    var s := IntToString(n);
    assert (s + "k")[..|s + "k"| - 1] == s;
    ParseIntOfIntToString(n);
    ParseFloatExtendsParseInt(s);
  }

  /** Unfolding `_parse_budget` on a cleaned text ending in `k`. */
  lemma ParseBudgetSuffix(raw: string, cleaned: string, f: real)
    requires Lower(Strip(raw)) == cleaned && EndsWith(cleaned, "k")
    requires ParseFloat(cleaned[..|cleaned| - 1]) == Some(f)
    ensures ParseBudget(raw) == Some(PyInt(JFloat(f * 1000.0, "")))
  {
    assert ParseBudget(raw) == BudgetOf(cleaned);
  }

  lemma CleanedThousands(n: int, k: char)
    requires k == 'k' || k == 'K'
    ensures Lower(IntToString(n) + [k]) == IntToString(n) + "k" && EndsWith(IntToString(n) + "k", "k")
  {
    IntTextShape(n);
    LowerConcat(IntToString(n), [k]);
    LowerDigits(IntToString(n));
  }

  lemma ThousandsValue(n: int)
    ensures PyInt(JFloat((n as real) * 1000.0, "")) == n * 1000
  {
  }

  /** One space on each side of a text with non-space ends is stripped away. */
  lemma StripPadded(s: string)
    requires s != [] && !IsSpace(s[0]) && !IsSpace(s[|s| - 1])
    ensures Strip(" " + s + " ") == s
  {
    var raw := " " + s + " ";
    var inner := s + " ";
    assert raw[1..] == inner && IsSpace(raw[0]) && !IsSpace(inner[0]);
    assert Strip(raw) == Strip(inner);
    assert inner[..|inner| - 1] == s && IsSpace(inner[|inner| - 1]);
    assert Strip(inner) == Strip(s) == s;
  }

  // ---------------------------------------------------------------------------
  // Signals and base scores

  /** `{str(node.get("id", "")) for node in nodes}`. */
  function IdTexts(nodes: seq<Node>): set<string> {
    set i | 0 <= i < |nodes| :: TextField(nodes[i], "id")
  }

  lemma IdTextsAreNodeIds(nodes: seq<Node>)
    requires forall n :: n in nodes ==> HasId(n)
    ensures IdTexts(nodes) == Neighbourhood.NodeIds(nodes)
    ensures forall n :: n in nodes ==> NodeId(n) == TextField(n, "id")
  {
    forall n | n in nodes ensures NodeId(n) == TextField(n, "id") {
      assert HasId(n);
    }
    forall id | id in Neighbourhood.NodeIds(nodes) ensures id in IdTexts(nodes) {
      var n :| n in nodes && NodeId(n) == id;
      var i :| 0 <= i < |nodes| && nodes[i] == n;
    }
    forall id | id in IdTexts(nodes) ensures id in Neighbourhood.NodeIds(nodes) {
      var i :| 0 <= i < |nodes| && TextField(nodes[i], "id") == id;
      assert nodes[i] in nodes;
    }
  }

  lemma IdTextsStep(nodes: seq<Node>)
    requires nodes != []
    ensures IdTexts(nodes) == IdTexts(nodes[..|nodes| - 1]) + {TextField(nodes[|nodes| - 1], "id")}
  {
    var k := |nodes| - 1;
    forall id | id in IdTexts(nodes) ensures id in IdTexts(nodes[..k]) + {TextField(nodes[k], "id")} {
      var i :| 0 <= i < |nodes| && TextField(nodes[i], "id") == id;
      if i < k {
        assert nodes[..k][i] == nodes[i];
      }
    }
    forall id | id in IdTexts(nodes[..k]) ensures id in IdTexts(nodes) {
      var i :| 0 <= i < k && TextField(nodes[..k][i], "id") == id;
      assert nodes[..k][i] == nodes[i];
    }
  }

  /** The `signals` dict after the node loop: each id keeps the signals of its last node. */
  function SignalsOf(nodes: seq<Node>, profile: Profile, diffPaths: set<string>, hub: map<string, real>,
                     recency: seq<real>): map<string, Signals>
    requires |recency| == |nodes|
  {
    if nodes == [] then map[]
    else
      var k := |nodes| - 1;
      SignalsOf(nodes[..k], profile, diffPaths, hub, recency[..k])
        [TextField(nodes[k], "id") := BaseSignals(nodes[k], profile, diffPaths, hub, recency[k])]
  }

  /** `base_scores`: each id's combined score, always in step with its signals. */
  function BaseScores(signals: map<string, Signals>, w: Weights): (r: map<string, real>)
    ensures r.Keys == signals.Keys
  {
    map id | id in signals :: CombineScore(signals[id], w)
  }

  /** Every node id is a key, and each key's signals are those of some node carrying it. */
  lemma SignalsOfShape(nodes: seq<Node>, profile: Profile, diffPaths: set<string>,
                       hub: map<string, real>, recency: seq<real>)
    requires |recency| == |nodes|
    ensures SignalsOf(nodes, profile, diffPaths, hub, recency).Keys == IdTexts(nodes)
    ensures forall id :: id in SignalsOf(nodes, profile, diffPaths, hub, recency) ==>
              exists i :: 0 <= i < |nodes| && TextField(nodes[i], "id") == id
                          && SignalsOf(nodes, profile, diffPaths, hub, recency)[id]
                             == BaseSignals(nodes[i], profile, diffPaths, hub, recency[i])
  {
    SignalsOfKeys(nodes, profile, diffPaths, hub, recency);
    SignalsOfOwners(nodes, profile, diffPaths, hub, recency);
  }

  lemma {:induction false} SignalsOfKeys(nodes: seq<Node>, profile: Profile, diffPaths: set<string>,
                                         hub: map<string, real>, recency: seq<real>)
    requires |recency| == |nodes|
    ensures SignalsOf(nodes, profile, diffPaths, hub, recency).Keys == IdTexts(nodes)
  {
    if nodes != [] {
      var k := |nodes| - 1;
      SignalsOfKeys(nodes[..k], profile, diffPaths, hub, recency[..k]);
      IdTextsStep(nodes);
    }
  }

  lemma {:induction false} SignalsOfOwners(nodes: seq<Node>, profile: Profile, diffPaths: set<string>,
                                           hub: map<string, real>, recency: seq<real>)
    requires |recency| == |nodes|
    ensures forall id :: id in SignalsOf(nodes, profile, diffPaths, hub, recency) ==>
              exists i :: 0 <= i < |nodes| && TextField(nodes[i], "id") == id
                          && SignalsOf(nodes, profile, diffPaths, hub, recency)[id]
                             == BaseSignals(nodes[i], profile, diffPaths, hub, recency[i])
  {
    if nodes != [] {
      var k := |nodes| - 1;
      var before := SignalsOf(nodes[..k], profile, diffPaths, hub, recency[..k]);
      SignalsOfOwners(nodes[..k], profile, diffPaths, hub, recency[..k]);
      var r := SignalsOf(nodes, profile, diffPaths, hub, recency);
      var last := TextField(nodes[k], "id");
      assert r == before[last := BaseSignals(nodes[k], profile, diffPaths, hub, recency[k])];
      forall id | id in r
        ensures exists i :: 0 <= i < |nodes| && TextField(nodes[i], "id") == id
                            && r[id] == BaseSignals(nodes[i], profile, diffPaths, hub, recency[i])
      {
        if id != last {
          EarlierOwner(nodes, profile, diffPaths, hub, recency, nodes[..k], recency[..k], before, id);
        }
      }
    }
  }

  lemma EarlierOwner(nodes: seq<Node>, profile: Profile, diffPaths: set<string>, hub: map<string, real>,
                     recency: seq<real>, prefix: seq<Node>, early: seq<real>, before: map<string, Signals>, id: string)
    requires |recency| == |nodes| > 0
    requires prefix == nodes[..|nodes| - 1] && early == recency[..|nodes| - 1]
    requires id in before
    requires exists i :: 0 <= i < |prefix| && TextField(prefix[i], "id") == id
               && before[id] == BaseSignals(prefix[i], profile, diffPaths, hub, early[i])
    ensures exists i :: 0 <= i < |nodes| && TextField(nodes[i], "id") == id
              && before[id] == BaseSignals(nodes[i], profile, diffPaths, hub, recency[i])
  {
    var i :| 0 <= i < |prefix| && TextField(prefix[i], "id") == id
             && before[id] == BaseSignals(prefix[i], profile, diffPaths, hub, early[i]);
    assert prefix[i] == nodes[i] && early[i] == recency[i];
  }

  /** With recency and hub values in [0, 1] and non-negative weights, every signal lies in [0, 1]
      and every base score between 0 and the weight total. */
  lemma BaseScoresBounds(nodes: seq<Node>, profile: Profile, diffPaths: set<string>,
                         hub: map<string, real>, recency: seq<real>, w: Weights)
    requires |recency| == |nodes|
    requires forall i :: 0 <= i < |recency| ==> InUnit(recency[i])
    requires forall k :: k in hub ==> InUnit(hub[k])
    requires NonNegativeWeights(w)
    ensures var signals := SignalsOf(nodes, profile, diffPaths, hub, recency);
            forall id :: id in signals ==>
              SignalsInUnit(signals[id]) && 0.0 <= BaseScores(signals, w)[id] <= WeightTotal(w)
  {
    var signals := SignalsOf(nodes, profile, diffPaths, hub, recency);
    SignalsOfShape(nodes, profile, diffPaths, hub, recency);
    forall id | id in signals
      ensures SignalsInUnit(signals[id]) && 0.0 <= BaseScores(signals, w)[id] <= WeightTotal(w)
    {
      var i :| 0 <= i < |nodes| && TextField(nodes[i], "id") == id
               && signals[id] == BaseSignals(nodes[i], profile, diffPaths, hub, recency[i]);
      CombineScoreBounds(signals[id], w);
    }
  }

  /** The node loop of `generate_pack`: `signals[node_id]` and `base_scores[node_id]`, later
      nodes overwriting earlier ones with the same id. */
  method ComputeSignals(nodes: seq<Node>, profile: Profile, diffPaths: set<string>, hub: map<string, real>,
                        recency: seq<real>, w: Weights)
    returns (signals: map<string, Signals>, base: map<string, real>)
    requires |recency| == |nodes|
    ensures signals == SignalsOf(nodes, profile, diffPaths, hub, recency)
    ensures base == BaseScores(signals, w)
  {
    signals := map[];
    base := map[];
    var i := 0;
    while i < |nodes|
      invariant 0 <= i <= |nodes|
      invariant signals == SignalsOf(nodes[..i], profile, diffPaths, hub, recency[..i])
      invariant base == BaseScores(signals, w)
    {
      var id := TextField(nodes[i], "id");
      var s := BaseSignals(nodes[i], profile, diffPaths, hub, recency[i]);
      SignalsOfStep(nodes, profile, diffPaths, hub, recency, i);
      BaseScoresUpdate(signals, id, s, w);
      signals := signals[id := s];
      base := base[id := CombineScore(s, w)];
      i := i + 1;
    }
    assert nodes[..i] == nodes && recency[..i] == recency;
  }

  lemma SignalsOfStep(nodes: seq<Node>, profile: Profile, diffPaths: set<string>, hub: map<string, real>,
                      recency: seq<real>, i: nat)
    requires |recency| == |nodes| && i < |nodes|
    ensures SignalsOf(nodes[..i + 1], profile, diffPaths, hub, recency[..i + 1])
            == SignalsOf(nodes[..i], profile, diffPaths, hub, recency[..i])
                 [TextField(nodes[i], "id") := BaseSignals(nodes[i], profile, diffPaths, hub, recency[i])]
  {
    assert nodes[..i + 1][..i] == nodes[..i] && recency[..i + 1][..i] == recency[..i];
  }

  lemma BaseScoresUpdate(signals: map<string, Signals>, id: string, s: Signals, w: Weights)
    ensures BaseScores(signals[id := s], w) == BaseScores(signals, w)[id := CombineScore(s, w)]
  {
  }

  // ---------------------------------------------------------------------------
  // Score fusion

  /** `theta * ppr + (1 - theta) * base` for every id with a base score, a missing rank being 0. */
  function Fuse(base: map<string, real>, ranking: map<string, real>, theta: real): (r: map<string, real>)
    ensures r.Keys == base.Keys
  {
    FuseOver(base, ranking, theta, base.Keys)
  }

  function FuseOver(base: map<string, real>, ranking: map<string, real>, theta: real, keys: set<string>): (r: map<string, real>)
    requires keys <= base.Keys
    ensures r.Keys == keys
  {
    map id | id in keys :: theta * Packer.Lookup(ranking, id) + (1.0 - theta) * base[id]
  }

  /** The fusion loop over `base_scores.items()`. */
  method FuseScores(base: map<string, real>, ranking: map<string, real>, theta: real)
    returns (scores: map<string, real>)
    ensures scores == Fuse(base, ranking, theta)
  {
    scores := map[];
    var pending := base.Keys;
    while pending != {}
      invariant pending <= base.Keys
      invariant scores == FuseOver(base, ranking, theta, base.Keys - pending)
      decreases |pending|
    {
      var id :| id in pending;
      assert base.Keys - (pending - {id}) == (base.Keys - pending) + {id};
      FuseOverAdd(base, ranking, theta, base.Keys - pending, id);
      scores := scores[id := theta * Packer.Lookup(ranking, id) + (1.0 - theta) * base[id]];
      pending := pending - {id};
    }
  }

  lemma FuseOverAdd(base: map<string, real>, ranking: map<string, real>, theta: real, keys: set<string>, id: string)
    requires keys <= base.Keys && id in base
    ensures FuseOver(base, ranking, theta, keys + {id})
            == FuseOver(base, ranking, theta, keys)[id := theta * Packer.Lookup(ranking, id) + (1.0 - theta) * base[id]]
  {
    var a := FuseOver(base, ranking, theta, keys + {id});
    var b := FuseOver(base, ranking, theta, keys)[id := theta * Packer.Lookup(ranking, id) + (1.0 - theta) * base[id]];
    assert a.Keys == b.Keys;
    forall x | x in a ensures a[x] == b[x] {
      assert a[x] == theta * Packer.Lookup(ranking, x) + (1.0 - theta) * base[x];
    }
  }

  /** With ranking off the rank is the base score itself, and fusion gives back the base score. */
  lemma FusionIdentity(base: map<string, real>, theta: real)
    ensures Fuse(base, base, theta) == base
  {
    forall id | id in base ensures Fuse(base, base, theta)[id] == base[id] {
      Blend(theta, base[id]);
    }
  }

  lemma Blend(theta: real, x: real)
    ensures theta * x + (1.0 - theta) * x == x
  {
  }

  /** For `theta` in [0, 1] the fused score lies between the rank and the base score. */
  lemma FuseBetween(base: map<string, real>, ranking: map<string, real>, theta: real, id: string)
    requires 0.0 <= theta <= 1.0 && id in base
    ensures var f := Fuse(base, ranking, theta)[id];
            var p := Packer.Lookup(ranking, id);
            (p <= base[id] ==> p <= f <= base[id]) && (base[id] <= p ==> base[id] <= f <= p)
  {
    var p := Packer.Lookup(ranking, id);
    var f := Fuse(base, ranking, theta)[id];
    assert f == theta * p + (1.0 - theta) * base[id];
    Between(theta, p, base[id], f);
  }

  lemma Between(theta: real, p: real, b: real, f: real)
    requires 0.0 <= theta <= 1.0 && f == theta * p + (1.0 - theta) * b
    ensures (p <= b ==> p <= f <= b) && (b <= p ==> b <= f <= p)
  {
    assert f == b + theta * (p - b);
    assert f == p + (1.0 - theta) * (b - p);
    NonNegativeProduct(theta, if p <= b then b - p else p - b);
    NonNegativeProduct(1.0 - theta, if p <= b then b - p else p - b);
  }

  lemma NonNegativeProduct(x: real, y: real)
    requires x >= 0.0 && y >= 0.0
    ensures x * y >= 0.0
  {
  }

  // ---------------------------------------------------------------------------
  // Seeds, candidates, order

  /** Nodes with some intent overlap or some diff relation seed the neighbourhood. */
  function Seeds(signals: map<string, Signals>): (r: set<string>)
    ensures r <= signals.Keys
    ensures forall id :: id in signals ==> (id in r <==> signals[id].intent > 0.0 || signals[id].diff > 0.0)
  {
    set id | id in signals && (signals[id].intent > 0.0 || signals[id].diff > 0.0)
  }

  /** The candidate set: the 2-hop neighbourhood of the seeds, or every node id without seeds. */
  method CandidateIds(nodes: seq<Node>, edges: seq<Neighbourhood.Edge>, seeds: set<string>)
    returns (ids: set<string>)
    ensures seeds != {} ==> seeds <= ids <= seeds + Neighbourhood.NodeIds(nodes)
    ensures seeds != {} ==> forall v :: v in ids && v !in seeds ==>
              Neighbourhood.Reach(Neighbourhood.Adjacency(nodes, edges), seeds, v, 2)
    ensures seeds != {} ==> ids == Neighbourhood.Ball(Neighbourhood.Adjacency(nodes, edges), seeds, 2)
    ensures seeds == {} ==> ids == IdTexts(nodes)
    ensures ids == CandidatePool(nodes, edges, seeds)
  {
    if seeds != {} {
      ids := Neighbourhood.CandidateNeighbourhood(nodes, edges, seeds, 2);
    } else {
      ids := IdTexts(nodes);
    }
  }

  /** The ids `generate_pack` ranks: the seeds and the nodes within 2 hops of them, or every node
      id when nothing seeds the neighbourhood. */
  ghost function CandidatePool(nodes: seq<Node>, edges: seq<Neighbourhood.Edge>, seeds: set<string>): set<string> {
    if seeds != {} then Neighbourhood.Ball(Neighbourhood.Adjacency(nodes, edges), seeds, 2) else IdTexts(nodes)
  }

  /** The length of `s[:limit]` for a sequence of length `n`. */
  function CutLength(n: nat, limit: int): (r: nat)
    ensures r <= n
    ensures 0 <= limit ==> r == if limit <= n then limit else n
  {
    if limit >= 0 then (if limit <= n then limit else n)
    else if n + limit >= 0 then n + limit else 0
  }

  /** Higher scores first, a missing score counting as 0; ties in any order. */
  predicate Descending(order: seq<string>, scores: map<string, real>) {
    forall i, j :: 0 <= i < j < |order| ==> Packer.Lookup(scores, order[i]) >= Packer.Lookup(scores, order[j])
  }

  lemma {:induction false} HasBest(ids: set<string>, scores: map<string, real>)
    requires ids != {}
    ensures exists m :: m in ids && forall x :: x in ids ==> Packer.Lookup(scores, x) <= Packer.Lookup(scores, m)
    decreases |ids|
  {
    var a :| a in ids;
    if ids != {a} {
      var rest := ids - {a};
      HasBest(rest, scores);
      var m :| m in rest && forall x :: x in rest ==> Packer.Lookup(scores, x) <= Packer.Lookup(scores, m);
      if Packer.Lookup(scores, a) > Packer.Lookup(scores, m) {
        assert forall x :: x in ids ==> Packer.Lookup(scores, x) <= Packer.Lookup(scores, a);
      } else {
        assert forall x :: x in ids ==> Packer.Lookup(scores, x) <= Packer.Lookup(scores, m);
      }
    }
  }

  /** `sorted(candidate_ids, key=score, reverse=True)`: every id once, highest score first. */
  method SortByScore(ids: set<string>, scores: map<string, real>) returns (order: seq<string>)
    ensures |order| == |ids| && forall x :: x in order <==> x in ids
    ensures Packer.Distinct(order) && Descending(order, scores)
  {
    order := [];
    var remaining := ids;
    while remaining != {}
      invariant remaining <= ids
      invariant forall x :: x in order <==> x in ids && x !in remaining
      invariant |order| + |remaining| == |ids|
      invariant Packer.Distinct(order) && Descending(order, scores)
      invariant forall i, y :: 0 <= i < |order| && y in remaining ==>
                  Packer.Lookup(scores, order[i]) >= Packer.Lookup(scores, y)
      decreases |remaining|
    {
      HasBest(remaining, scores);
      var m :| m in remaining && forall x :: x in remaining ==> Packer.Lookup(scores, x) <= Packer.Lookup(scores, m);
      order := order + [m];
      remaining := remaining - {m};
    }
  }

  /** `s[:n]`: the first `n` elements, a negative `n` leaving out the last `-n`. */
  function Prefix(s: seq<string>, n: int): (r: seq<string>)
    ensures |r| <= |s| && r == s[..|r|]
    ensures n >= 0 ==> |r| == (if n <= |s| then n else |s|)
    ensures n < 0 ==> |r| == (if |s| + n >= 0 then |s| + n else 0)
  {
    if n >= 0 then (if n <= |s| then s[..n] else s)
    else if |s| + n >= 0 then s[..|s| + n] else []
  }

  /** What a cut of a descending order keeps scores at least as high as what it drops. */
  lemma PrefixDominates(s: seq<string>, n: int, scores: map<string, real>)
    requires Descending(s, scores)
    ensures |Prefix(s, n)| == CutLength(|s|, n)
    ensures forall x, y :: x in Prefix(s, n) && y in s && y !in Prefix(s, n) ==>
              Packer.Lookup(scores, x) >= Packer.Lookup(scores, y)
  {
    var r := Prefix(s, n);
    forall x, y | x in r && y in s && y !in r
      ensures Packer.Lookup(scores, x) >= Packer.Lookup(scores, y)
    {
      var i :| 0 <= i < |r| && r[i] == x;
      var j :| 0 <= j < |s| && s[j] == y;
      assert r[i] == s[i];
      assert j >= |r|;
    }
  }

  lemma PrefixKeeps(s: seq<string>, n: int, scores: map<string, real>)
    requires Packer.Distinct(s) && Descending(s, scores)
    ensures Packer.Distinct(Prefix(s, n)) && Descending(Prefix(s, n), scores)
    ensures forall x :: x in Prefix(s, n) ==> x in s
  {
    var r := Prefix(s, n);
    assert forall i :: 0 <= i < |r| ==> r[i] == s[i];
  }

  // ---------------------------------------------------------------------------
  // Metrics

  /** `total_tokens`: the token counts of all nodes. */
  function TokenSource(nodes: seq<Node>): int {
    if nodes == [] then 0 else TokenSource(nodes[..|nodes| - 1]) + TokenCount(nodes[|nodes| - 1])
  }

  /** `next((node for node in nodes if str(node.get("id")) == id), {}).get("path")`. */
  function PathOf(nodes: seq<Node>, id: string): Option<Json> {
    match Packer.FindNode(nodes, id)
    case Some(n) => Get(n, "path")
    case None => None
  }

  /** The path of a selected node when it is truthy (`if path`), `None` otherwise. */
  function TruthyPathOf(nodes: seq<Node>, id: string): Option<Json> {
    var p := PathOf(nodes, id);
    if p.Some? && Truthy(p.value) then p else None
  }

  /** The values present in a sequence of options, as a set. */
  function Present<T(==,!new)>(xs: seq<Option<T>>): (r: set<T>)
    ensures forall x :: x in r <==> Some(x) in xs
  {
    if xs == [] then {}
    else
      var prefix := xs[..|xs| - 1];
      var last := xs[|xs| - 1];
      assert forall p :: p in xs <==> p in prefix || p == last;
      Present(prefix) + (if last.Some? then {last.value} else {})
  }

  /** Every entry is present, and no two are equal. */
  predicate AllPresentDistinct<T(==)>(xs: seq<Option<T>>) {
    (forall i :: 0 <= i < |xs| ==> xs[i].Some?)
    && forall i, j :: 0 <= i < j < |xs| ==> xs[i] != xs[j]
  }

  /** There are never more values than entries, and exactly as many iff every entry is present
      and different from the others. */
  lemma {:induction false} PresentCount<T(!new)>(xs: seq<Option<T>>)
    ensures |Present(xs)| <= |xs|
    ensures |Present(xs)| == |xs| <==> AllPresentDistinct(xs)
  {
    if xs != [] {
      var n := |xs| - 1;
      var prefix := xs[..n];
      var last := xs[n];
      PresentCount(prefix);
      var isNew := last.Some? && last.value !in Present(prefix);
      PresentStep(xs);
      if AllPresentDistinct(xs) {
        AllPresentDistinctPrefix(xs);
      }
      if |Present(xs)| == |xs| {
        assert isNew && AllPresentDistinct(prefix);
        AllPresentDistinctExtend(xs);
      }
    }
  }

  lemma PresentStep<T(!new)>(xs: seq<Option<T>>)
    requires xs != []
    ensures var prefix := xs[..|xs| - 1];
            var last := xs[|xs| - 1];
            |Present(xs)| == |Present(prefix)| + (if last.Some? && last.value !in Present(prefix) then 1 else 0)
  {
  }

  lemma AllPresentDistinctPrefix<T>(xs: seq<Option<T>>)
    requires xs != [] && AllPresentDistinct(xs)
    ensures AllPresentDistinct(xs[..|xs| - 1])
  {
  }

  lemma AllPresentDistinctExtend<T>(xs: seq<Option<T>>)
    requires xs != [] && AllPresentDistinct(xs[..|xs| - 1]) && xs[|xs| - 1].Some?
    requires forall i :: 0 <= i < |xs| - 1 ==> xs[i] != xs[|xs| - 1]
    ensures AllPresentDistinct(xs)
  {
    var n := |xs| - 1;
    assert forall i :: 0 <= i < n ==> xs[i] == xs[..n][i];
  }

  function PathsOf(nodes: seq<Node>, sections: seq<Packer.Section>): (r: seq<Option<Json>>)
    ensures |r| == |sections| && forall i :: 0 <= i < |r| ==> r[i] == TruthyPathOf(nodes, sections[i].id)
  {
    seq(|sections|, i requires 0 <= i < |sections| => TruthyPathOf(nodes, sections[i].id))
  }

  /** `dup_rate`: the share of selections whose path repeats an earlier one or is missing; 0 with
      nothing selected. */
  function DupRate(nodes: seq<Node>, sections: seq<Packer.Section>): real {
    if sections == [] then 0.0
    else 1.0 - (|Present(PathsOf(nodes, sections))| as real) / (|sections| as real)
  }

  /** The duplicate rate lies in [0, 1], and is 0 exactly when nothing is selected or every
      selected node has its own non-empty path. */
  lemma DupRateRange(nodes: seq<Node>, sections: seq<Packer.Section>)
    ensures 0.0 <= DupRate(nodes, sections) <= 1.0
    ensures DupRate(nodes, sections) == 0.0 <==> sections == [] || AllPresentDistinct(PathsOf(nodes, sections))
  {
    if sections != [] {
      var paths := PathsOf(nodes, sections);
      PresentCount(paths);
      RatioBounds(|Present(paths)|, |sections|);
    }
  }

  lemma RatioBounds(u: nat, n: nat)
    requires 0 < n && u <= n
    ensures 0.0 <= 1.0 - (u as real) / (n as real) <= 1.0
    ensures 1.0 - (u as real) / (n as real) == 0.0 <==> u == n
  {
    if u != n {
      assert (u as real) < (n as real);
      assert (u as real) / (n as real) < 1.0;
    } else {
      assert (u as real) / (n as real) == 1.0;
    }
  }

  // ---------------------------------------------------------------------------
  // generate_pack

  /** The pack `generate_pack` returns: the intent, the budget as text, the chosen sections and
      the metrics `token_in`, `token_src`, `dup_rate` and `diversity_penalty`. */
  datatype Pack = Pack(
    intent: string,
    budget: string,
    sections: seq<Packer.Section>,
    tokenIn: int,
    tokenSrc: int,
    dupRate: real,
    penalty: real)

  /** `generate_pack` once the configuration and graph are loaded: `budget` is already an integer,
      `diffPaths` the changed paths as text, and `hub`/`recency` the per-node hub and recency
      signals. The fused scores and the capped candidate list are returned alongside the pack. */
  method GeneratePack(intent: string, budget: int, cfg: Config, nodes: seq<Node>, edges: seq<Neighbourhood.Edge>,
                      usePpr: bool, diffPaths: set<string>, hub: map<string, real>, recency: seq<real>)
    returns (pack: Pack, ranking: map<string, real>, scores: map<string, real>, candidates: seq<string>)
    requires |recency| == |nodes|
    requires forall n :: n in nodes ==> HasId(n)
    ensures pack.intent == intent && pack.budget == IntToString(budget)
    ensures ranking.Keys == IdTexts(nodes)
    ensures usePpr && 0.0 <= cfg.lam <= 1.0 ==> forall id :: id in ranking ==> ranking[id] >= 0.0
    ensures var signals := SignalsOf(nodes, IntentProfile(intent), diffPaths, hub, recency);
            && scores == Fuse(BaseScores(signals, cfg.weights), ranking, cfg.theta)
            && (!usePpr ==> ranking == BaseScores(signals, cfg.weights))
            && (usePpr ==> ranking == Ppr.PprScores(nodes, edges, BaseScores(signals, cfg.weights), cfg.lam, cfg.iters, cfg.tol))
            && var env := Packer.Env(nodes, scores, signals, ranking, budget, cfg.muFile, cfg.muRole);
               && Packer.EnvOk(env)
               && var st := Packer.Select(env, Packer.Start, candidates);
                  pack.sections == st.selections && pack.tokenIn == st.tokenIn && pack.penalty == st.penalty
    ensures var pool := CandidatePool(nodes, edges, Seeds(SignalsOf(nodes, IntentProfile(intent), diffPaths, hub, recency)));
            && (forall id :: id in candidates ==> id in pool)
            && |candidates| == CutLength(|pool|, cfg.limitCandidates)
            && forall x, y :: x in candidates && y in pool && y !in candidates ==>
                 Packer.Lookup(scores, x) >= Packer.Lookup(scores, y)
    ensures var signals := SignalsOf(nodes, IntentProfile(intent), diffPaths, hub, recency);
            var base := BaseScores(signals, cfg.weights);
            scores.Keys == IdTexts(nodes)
            && (!usePpr ==> scores == base)
            && var seeds := Seeds(signals);
            forall id :: id in candidates ==>
              id in scores
              && (seeds != {} && id !in seeds ==> Neighbourhood.Reach(Neighbourhood.Adjacency(nodes, edges), seeds, id, 2))
    ensures Packer.Distinct(candidates) && Descending(candidates, scores)
    ensures 0 <= cfg.limitCandidates ==> |candidates| <= cfg.limitCandidates
    ensures Packer.IsSubsequence(Packer.Ids(pack.sections), candidates)
    ensures Packer.Distinct(Packer.Ids(pack.sections))
    ensures forall s :: s in pack.sections ==> s.id in candidates && Packer.Lookup(scores, s.id) > 0.0
    ensures pack.tokenIn == Packer.SumTok(pack.sections)
    ensures pack.sections == [] ==> pack.tokenIn == 0
    ensures pack.sections != [] ==> pack.tokenIn <= budget
    ensures pack.penalty >= 0.0
    ensures pack.tokenSrc == TokenSource(nodes)
    ensures pack.dupRate == DupRate(nodes, pack.sections) && 0.0 <= pack.dupRate <= 1.0
  {
    var signals;
    signals, ranking, scores := ScoreNodes(intent, cfg, nodes, edges, usePpr, diffPaths, hub, recency);
    candidates := RankCandidates(nodes, edges, signals, scores, cfg.limitCandidates);
    EnvReady(nodes, signals);
    var env := Packer.Env(nodes, scores, signals, ranking, budget, cfg.muFile, cfg.muRole);
    var st := Packer.GreedyPack(env, candidates);
    Packer.PackGuarantees(env, candidates);
    DupRateRange(nodes, st.selections);
    pack := Pack(intent, IntToString(budget), st.selections, st.tokenIn, TokenSource(nodes),
                 DupRate(nodes, st.selections), st.penalty);
  }

  /** The scoring half of `generate_pack`: signals and base scores per node, the ranking (the
      personalised ranking, or the base scores themselves), and their fusion. */
  method ScoreNodes(intent: string, cfg: Config, nodes: seq<Node>, edges: seq<Neighbourhood.Edge>,
                    usePpr: bool, diffPaths: set<string>, hub: map<string, real>, recency: seq<real>)
    returns (signals: map<string, Signals>, ranking: map<string, real>, scores: map<string, real>)
    requires |recency| == |nodes|
    requires forall n :: n in nodes ==> HasId(n)
    ensures signals == SignalsOf(nodes, IntentProfile(intent), diffPaths, hub, recency)
    ensures signals.Keys == IdTexts(nodes) && scores.Keys == IdTexts(nodes)
    ensures scores == Fuse(BaseScores(signals, cfg.weights), ranking, cfg.theta)
    ensures !usePpr ==> ranking == BaseScores(signals, cfg.weights) && scores == ranking
    ensures usePpr ==> ranking == Ppr.PprScores(nodes, edges, BaseScores(signals, cfg.weights), cfg.lam, cfg.iters, cfg.tol)
    ensures ranking.Keys == IdTexts(nodes)
    ensures usePpr && 0.0 <= cfg.lam <= 1.0 ==> forall id :: id in ranking ==> ranking[id] >= 0.0
  {
    var profile := ComputeIntentProfile(intent);
    var base;
    signals, base := ComputeSignals(nodes, profile, diffPaths, hub, recency, cfg.weights);
    SignalsOfShape(nodes, profile, diffPaths, hub, recency);
    if usePpr {
      ranking := Ppr.PersonalizeScores(nodes, edges, base, cfg.lam, cfg.iters, cfg.tol);
    } else {
      ranking := base;
    }
    scores := FuseScores(base, ranking, cfg.theta);
    if !usePpr {
      FusionIdentity(base, cfg.theta);
    }
    IdTextsAreNodeIds(nodes);
  }

  /** The candidate half: seeds, their 2-hop neighbourhood (or every node), sorted by combined
      score, highest first, and cut to `limit`. */
  method RankCandidates(nodes: seq<Node>, edges: seq<Neighbourhood.Edge>, signals: map<string, Signals>,
                        scores: map<string, real>, limit: int)
    returns (candidates: seq<string>)
    requires forall n :: n in nodes ==> HasId(n)
    requires signals.Keys == IdTexts(nodes) && scores.Keys == IdTexts(nodes)
    ensures Packer.Distinct(candidates) && Descending(candidates, scores)
    ensures 0 <= limit ==> |candidates| <= limit
    ensures var seeds := Seeds(signals);
            forall id :: id in candidates ==>
              id in scores
              && (seeds != {} && id !in seeds ==> Neighbourhood.Reach(Neighbourhood.Adjacency(nodes, edges), seeds, id, 2))
    ensures var pool := CandidatePool(nodes, edges, Seeds(signals));
            && (forall id :: id in candidates ==> id in pool)
            && |candidates| == CutLength(|pool|, limit)
            && forall x, y :: x in candidates && y in pool && y !in candidates ==>
                 Packer.Lookup(scores, x) >= Packer.Lookup(scores, y)
  {
    var seeds := Seeds(signals);
    var pool := CandidateIds(nodes, edges, seeds);
    var order := SortByScore(pool, scores);
    candidates := Prefix(order, limit);
    PrefixKeeps(order, limit, scores);
    PrefixDominates(order, limit, scores);
    CandidatesWithin(nodes, edges, seeds, pool, candidates, scores.Keys);
  }

  lemma EnvReady(nodes: seq<Node>, signals: map<string, Signals>)
    requires forall n :: n in nodes ==> HasId(n)
    requires signals.Keys == IdTexts(nodes)
    ensures forall n :: n in nodes ==> NodeId(n) in signals
  {
    IdTextsAreNodeIds(nodes);
    forall n | n in nodes ensures NodeId(n) in signals {
      assert NodeId(n) in Neighbourhood.NodeIds(nodes);
    }
  }

  /** Every capped candidate has a score, and is a seed or lies within 2 hops of one. */
  lemma CandidatesWithin(nodes: seq<Node>, edges: seq<Neighbourhood.Edge>, seeds: set<string>, pool: set<string>,
                         candidates: seq<string>, keys: set<string>)
    requires forall n :: n in nodes ==> HasId(n)
    requires seeds <= keys == IdTexts(nodes)
    requires seeds != {} ==> seeds <= pool <= seeds + Neighbourhood.NodeIds(nodes)
    requires seeds != {} ==> forall v :: v in pool && v !in seeds ==>
               Neighbourhood.Reach(Neighbourhood.Adjacency(nodes, edges), seeds, v, 2)
    requires seeds == {} ==> pool == IdTexts(nodes)
    requires forall x :: x in candidates ==> x in pool
    ensures forall id :: id in candidates ==>
              id in keys
              && (seeds != {} && id !in seeds ==> Neighbourhood.Reach(Neighbourhood.Adjacency(nodes, edges), seeds, id, 2))
  {
    IdTextsAreNodeIds(nodes);
  }
}

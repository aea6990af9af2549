/** `tools/codemap/update.py`: regenerating a Birdseye index and its capsules. Edges are
    normalised (deduplicated and sorted), dependency lists are rebuilt from them, and files are
    rewritten only when their serialised content changes. */
module Codemap {
  import opened Wrappers
  import opened Text
  import opened Json
  import Ordering
  import Paths

  // ---------------------------------------------------------------------------
  // _normalise_edges

  type Pair = (string, string)

  /** An entry counts as an edge when it is a two-element list; both ends go through `str`. */
  function EdgeOf(j: Json): Option<Pair> {
    if j.JList? && |j.items| == 2 then Some((PyStr(j.items[0]), PyStr(j.items[1]))) else None
  }

  /** The set of pairs `_normalise_edges` collects. */
  function PairsOf(edges: seq<Json>): set<Pair> {
    set i | 0 <= i < |edges| && EdgeOf(edges[i]).Some? :: EdgeOf(edges[i]).value
  }

  /** Python's ordering of `(source, target)` tuples. */
  predicate PairLess(p: Pair, q: Pair) {
    Ordering.Less(p.0, q.0) || (p.0 == q.0 && Ordering.Less(p.1, q.1))
  }

  predicate StrictlySorted(s: seq<Pair>) {
    forall i, j :: 0 <= i < j < |s| ==> PairLess(s[i], s[j])
  }

  lemma PairIrreflexive(p: Pair)
    ensures !PairLess(p, p)
  {
    Ordering.Irreflexive(p.0);
    Ordering.Irreflexive(p.1);
  }

  lemma PairAsymmetric(p: Pair, q: Pair)
    ensures !(PairLess(p, q) && PairLess(q, p))
  {
    Ordering.Asymmetric(p.0, q.0);
    Ordering.Asymmetric(p.1, q.1);
    Ordering.Irreflexive(p.0);
  }

  lemma PairTransitive(p: Pair, q: Pair, r: Pair)
    requires PairLess(p, q) && PairLess(q, r)
    ensures PairLess(p, r)
  {
    if Ordering.Less(p.0, q.0) && Ordering.Less(q.0, r.0) {
      Ordering.Transitive(p.0, q.0, r.0);
    } else if p.0 == q.0 && q.0 == r.0 {
      Ordering.Transitive(p.1, q.1, r.1);
    }
  }

  lemma PairTotal(p: Pair, q: Pair)
    ensures p == q || PairLess(p, q) || PairLess(q, p)
  {
    Ordering.Total(p.0, q.0);
    Ordering.Total(p.1, q.1);
  }

  /** `m` is in `s` and below every other member. */
  predicate Least(m: Pair, s: set<Pair>) {
    m in s && forall x :: x in s && x != m ==> PairLess(m, x)
  }

  /** A finite non-empty set of pairs has a least element. */
  lemma {:induction false} HasLeast(s: set<Pair>)
    requires s != {}
    ensures exists m :: Least(m, s)
    decreases |s|
  {
    var a :| a in s;
    if s == {a} {
      assert Least(a, s);
    } else {
      var rest := s - {a};
      HasLeast(rest);
      var m :| Least(m, rest);
      PairTotal(a, m);
      if PairLess(a, m) {
        LeastBelow(a, m, rest);
        assert s == rest + {a};
        assert Least(a, s);
      } else {
        LeastAbove(a, m, rest);
        assert s == rest + {a};
        assert Least(m, s);
      }
    }
  }

  /** A pair below the least of `rest` is the least of `rest + {a}`. */
  lemma LeastBelow(a: Pair, m: Pair, rest: set<Pair>)
    requires Least(m, rest) && PairLess(a, m)
    ensures Least(a, rest + {a})
  {
    forall x | x in rest + {a} && x != a ensures PairLess(a, x) {
      if x != m {
        PairTransitive(a, m, x);
      }
    }
  }

  /** The least of `rest` stays the least when a larger pair joins. */
  lemma LeastAbove(a: Pair, m: Pair, rest: set<Pair>)
    requires Least(m, rest) && a !in rest && PairLess(m, a)
    ensures Least(m, rest + {a})
  {
  }

  /** `_normalise_edges`: the distinct edges, in ascending order. */
  method NormaliseEdges(edges: seq<Json>) returns (r: seq<Pair>)
    ensures StrictlySorted(r)
    ensures forall p :: p in r <==> p in PairsOf(edges)
    ensures r == Normalised(edges)
  {
    var pairs: set<Pair> := {};
    var i := 0;
    while i < |edges|
      invariant 0 <= i <= |edges|
      invariant pairs == PairsOf(edges[..i])
    {
      assert forall k :: 0 <= k < i ==> edges[..i + 1][k] == edges[..i][k];
      var e := EdgeOf(edges[i]);
      if e.Some? {
        pairs := pairs + {e.value};
      }
      i := i + 1;
    }
    assert edges[..i] == edges;
    r := [];
    var remaining := pairs;
    while remaining != {}
      invariant remaining <= pairs
      invariant forall p :: p in r <==> p in pairs && p !in remaining
      invariant StrictlySorted(r)
      invariant forall k, y :: 0 <= k < |r| && y in remaining ==> PairLess(r[k], y)
      decreases |remaining|
    {
      HasLeast(remaining);
      var m :| Least(m, remaining);
      r := r + [m];
      remaining := remaining - {m};
    }
    StrictlySortedUnique(r, Normalised(edges));
  }

  /** `p` placed into an ascending list of distinct pairs, unless it is there already. */
  function InsertPair(p: Pair, s: seq<Pair>): (r: seq<Pair>)
    requires StrictlySorted(s)
    ensures StrictlySorted(r)
    ensures forall q :: q in r <==> q in s || q == p
  {
    if s == [] then [p]
    else if p == s[0] then s
    else if PairLess(p, s[0]) then
      assert forall j :: 0 < j < |s| ==> PairLess(p, s[j]) by {
        forall j | 0 < j < |s| ensures PairLess(p, s[j]) {
          PairTransitive(p, s[0], s[j]);
        }
      }
      [p] + s
    else
      PairTotal(p, s[0]);
      var rest := InsertPair(p, s[1..]);
      assert forall j :: 0 <= j < |rest| ==> PairLess(s[0], rest[j]) by {
        forall j | 0 <= j < |rest| ensures PairLess(s[0], rest[j]) {
          assert rest[j] in rest;
        }
      }
      assert s == [s[0]] + s[1..];
      [s[0]] + rest
  }

  /** The pairs of `edges`, one at a time, by insertion: a second definition of what
      `_normalise_edges` returns. */
  function Normalised(edges: seq<Json>): (r: seq<Pair>)
    ensures StrictlySorted(r)
    ensures forall p :: p in r <==> p in PairsOf(edges)
  {
    if edges == [] then []
    else
      var rest := Normalised(edges[..|edges| - 1]);
      PairsOfSnoc(edges);
      match EdgeOf(edges[|edges| - 1])
      case Some(p) => InsertPair(p, rest)
      case None => rest
  }

  /** The pairs of a list are those of its front and of its last entry. */
  lemma PairsOfSnoc(edges: seq<Json>)
    requires edges != []
    ensures var last := EdgeOf(edges[|edges| - 1]);
            PairsOf(edges) == PairsOf(edges[..|edges| - 1]) + (if last.Some? then {last.value} else {})
  {
    var front := edges[..|edges| - 1];
    forall i | 0 <= i < |front| ensures front[i] == edges[i] { }
  }

  /** `[[src, dst] for ...]` as JSON values. */
  function EdgesJson(r: seq<Pair>): (j: seq<Json>)
    ensures |j| == |r| && forall i :: 0 <= i < |r| ==> j[i] == JList([JStr(r[i].0), JStr(r[i].1)])
  {
    seq(|r|, i requires 0 <= i < |r| => JList([JStr(r[i].0), JStr(r[i].1)]))
  }

  /** The edges of a normalised list read back as exactly its pairs. */
  lemma PairsOfEdgesJson(r: seq<Pair>)
    ensures forall p :: p in PairsOf(EdgesJson(r)) <==> p in r
  {
    var j := EdgesJson(r);
    forall i | 0 <= i < |r| ensures EdgeOf(j[i]) == Some(r[i]) {
      assert PyStr(JStr(r[i].0)) == r[i].0;
    }
    forall p | p in r ensures p in PairsOf(j) {
      var i :| 0 <= i < |r| && r[i] == p;
      assert EdgeOf(j[i]).Some?;
    }
  }

  lemma HeadIn(b: seq<Pair>)
    ensures b == [] || b[0] in b
  {
  }

  /** A strictly ascending list is determined by its elements. */
  lemma {:induction false} StrictlySortedUnique(a: seq<Pair>, b: seq<Pair>)
    requires StrictlySorted(a) && StrictlySorted(b)
    requires forall p :: p in a <==> p in b
    ensures a == b
    decreases |a|
  {
    if a == [] {
      HeadIn(b);
    } else {
      assert a[0] in b;
      assert a[0] == b[0] by {
        assert b[0] in a;
        if a[0] != b[0] {
          var i :| 0 < i < |b| && b[i] == a[0];
          var j :| 0 < j < |a| && a[j] == b[0];
          PairAsymmetric(a[0], b[0]);
        }
      }
      forall p ensures p in a[1..] <==> p in b[1..] {
        if p in a[1..] {
          var i :| 1 <= i < |a| && a[i] == p;
          PairIrreflexive(a[0]);
          assert p != a[0];
          assert p in b;
        }
        if p in b[1..] {
          var i :| 1 <= i < |b| && b[i] == p;
          PairIrreflexive(b[0]);
          assert p != b[0];
          assert p in a;
        }
      }
      StrictlySortedUnique(a[1..], b[1..]);
      assert a == [a[0]] + a[1..] && b == [b[0]] + b[1..];
    }
  }

  /** Normalising is idempotent: normalising the JSON form of a normalised list gives it back. */
  lemma NormaliseIdempotent(r: seq<Pair>)
    requires StrictlySorted(r)
    ensures Normalised(EdgesJson(r)) == r
  {
    PairsOfEdgesJson(r);
    StrictlySortedUnique(Normalised(EdgesJson(r)), r);
  }

  // ---------------------------------------------------------------------------
  // _prepare_dependencies

  /** The targets of `source`, in edge order (what the `append` calls build). */
  function Targets(edges: seq<Pair>, source: string): (r: seq<string>)
    ensures forall t :: t in r <==> (source, t) in edges
  {
    if edges == [] then []
    else
      var last := edges[|edges| - 1];
      assert forall p :: p in edges <==> p in edges[..|edges| - 1] || p == last;
      Targets(edges[..|edges| - 1], source) + (if last.0 == source then [last.1] else [])
  }

  /** The sources of `target`, in edge order. */
  function Sources(edges: seq<Pair>, target: string): (r: seq<string>)
    ensures forall s :: s in r <==> (s, target) in edges
  {
    if edges == [] then []
    else
      var last := edges[|edges| - 1];
      assert forall p :: p in edges <==> p in edges[..|edges| - 1] || p == last;
      Sources(edges[..|edges| - 1], target) + (if last.1 == target then [last.0] else [])
  }

  function SourceSet(edges: seq<Pair>): set<string> {
    set i | 0 <= i < |edges| :: edges[i].0
  }

  function TargetSet(edges: seq<Pair>): set<string> {
    set i | 0 <= i < |edges| :: edges[i].1
  }

  /** The dicts of lists after the `append` loop, before sorting. */
  function OutLists(edges: seq<Pair>): (r: map<string, seq<string>>)
    ensures r.Keys == SourceSet(edges)
  {
    map s | s in SourceSet(edges) :: Targets(edges, s)
  }

  function InLists(edges: seq<Pair>): (r: map<string, seq<string>>)
    ensures r.Keys == TargetSet(edges)
  {
    map t | t in TargetSet(edges) :: Sources(edges, t)
  }

  /** Every source with its targets sorted. */
  function SortedOut(edges: seq<Pair>): (r: map<string, seq<string>>)
    ensures r.Keys == SourceSet(edges)
    ensures forall s :: s in r ==> r[s] == Ordering.Sort(Targets(edges, s))
  {
    SortAll(OutLists(edges))
  }

  /** Every target with its sources sorted. */
  function SortedIn(edges: seq<Pair>): (r: map<string, seq<string>>)
    ensures r.Keys == TargetSet(edges)
    ensures forall t :: t in r ==> r[t] == Ordering.Sort(Sources(edges, t))
  {
    SortAll(InLists(edges))
  }

  /** `values.sort()` on every list of a dict. */
  function SortAll(m: map<string, seq<string>>): (r: map<string, seq<string>>)
    ensures r.Keys == m.Keys
    ensures forall k :: k in m ==> Ordering.Sorted(r[k]) && multiset(r[k]) == multiset(m[k])
  {
    map k | k in m :: Ordering.Sort(m[k])
  }

  /** `_prepare_dependencies`: for every source its sorted targets (`deps_out`), for every
      target its sorted sources (`deps_in`). */
  method PrepareDependencies(edges: seq<Pair>) returns (depsOut: map<string, seq<string>>, depsIn: map<string, seq<string>>)
    ensures depsOut == SortedOut(edges) && depsIn == SortedIn(edges)
  {
    depsOut, depsIn := map[], map[];
    var i := 0;
    while i < |edges|
      invariant 0 <= i <= |edges|
      invariant depsOut == OutLists(edges[..i]) && depsIn == InLists(edges[..i])
    {
      var (source, target) := edges[i];
      ListsStep(edges, i);
      depsOut := depsOut[source := DepsOf(depsOut, source) + [target]];
      depsIn := depsIn[target := DepsOf(depsIn, target) + [source]];
      i := i + 1;
    }
    assert edges[..i] == edges;
    depsOut := SortAll(depsOut);
    depsIn := SortAll(depsIn);
  }


  lemma ListsStep(edges: seq<Pair>, i: nat)
    requires i < |edges|
    ensures OutLists(edges[..i + 1]) == OutLists(edges[..i])[edges[i].0 := DepsOf(OutLists(edges[..i]), edges[i].0) + [edges[i].1]]
    ensures InLists(edges[..i + 1]) == InLists(edges[..i])[edges[i].1 := DepsOf(InLists(edges[..i]), edges[i].1) + [edges[i].0]]
  {
    OutStep(edges, i);
    InStep(edges, i);
  }

  lemma OutStep(edges: seq<Pair>, i: nat)
    requires i < |edges|
    ensures OutLists(edges[..i + 1]) == OutLists(edges[..i])[edges[i].0 := DepsOf(OutLists(edges[..i]), edges[i].0) + [edges[i].1]]
  {
    var pre := edges[..i];
    var next := edges[..i + 1];
    var (src, tgt) := edges[i];
    assert next[..i] == pre && next[i] == edges[i];
    SetsStep(edges, i);
    var m1 := OutLists(next);
    var m2 := OutLists(pre)[src := DepsOf(OutLists(pre), src) + [tgt]];
    forall s | s in m1 ensures m1[s] == m2[s] {
      assert Targets(next, s) == Targets(pre, s) + (if src == s then [tgt] else []);
      if s == src && s !in SourceSet(pre) {
        EmptyTargets(pre, s);
      }
    }
    assert m1 == m2;
  }

  lemma InStep(edges: seq<Pair>, i: nat)
    requires i < |edges|
    ensures InLists(edges[..i + 1]) == InLists(edges[..i])[edges[i].1 := DepsOf(InLists(edges[..i]), edges[i].1) + [edges[i].0]]
  {
    var pre := edges[..i];
    var next := edges[..i + 1];
    var (src, tgt) := edges[i];
    assert next[..i] == pre && next[i] == edges[i];
    SetsStep(edges, i);
    var m1 := InLists(next);
    var m2 := InLists(pre)[tgt := DepsOf(InLists(pre), tgt) + [src]];
    forall t | t in m1 ensures m1[t] == m2[t] {
      assert Sources(next, t) == Sources(pre, t) + (if tgt == t then [src] else []);
      if t == tgt && t !in TargetSet(pre) {
        EmptySources(pre, t);
      }
    }
    assert m1 == m2;
  }

  lemma SetsStep(edges: seq<Pair>, i: nat)
    requires i < |edges|
    ensures SourceSet(edges[..i + 1]) == SourceSet(edges[..i]) + {edges[i].0}
    ensures TargetSet(edges[..i + 1]) == TargetSet(edges[..i]) + {edges[i].1}
  {
    assert forall k :: 0 <= k < i ==> edges[..i + 1][k] == edges[..i][k];
    assert edges[..i + 1][i] == edges[i];
  }

  lemma EmptyTargets(edges: seq<Pair>, s: string)
    requires s !in SourceSet(edges)
    ensures Targets(edges, s) == []
  {
  }

  lemma EmptySources(edges: seq<Pair>, t: string)
    requires t !in TargetSet(edges)
    ensures Sources(edges, t) == []
  {
  }

  /** `t ∈ deps_out[s]` exactly when `[s, t]` is an edge, and `s ∈ deps_in[t]` exactly then too;
      every list is sorted. */
  lemma DependenciesMatchEdges(edges: seq<Pair>, s: string, t: string)
    ensures Ordering.Sorted(Ordering.Sort(Targets(edges, s))) && Ordering.Sorted(Ordering.Sort(Sources(edges, t)))
    ensures t in Ordering.Sort(Targets(edges, s)) <==> (s, t) in edges
    ensures s in Ordering.Sort(Sources(edges, t)) <==> (s, t) in edges
  {
    var out := Ordering.Sort(Targets(edges, s));
    var inn := Ordering.Sort(Sources(edges, t));
    assert t in out <==> t in multiset(out);
    assert s in inn <==> s in multiset(inn);
  }

  // ---------------------------------------------------------------------------
  // JSON objects as Python dicts

  /** `d[key] = v`: an existing key keeps its place, a new one goes last. */
  function SetKey(entries: seq<(string, Json)>, key: string, v: Json): (r: seq<(string, Json)>)
    ensures Get(r, key) == Some(v)
    ensures forall k :: k != key ==> Get(r, k) == Get(entries, k)
  {
    if entries == [] then [(key, v)]
    else if entries[0].0 == key then [(key, v)] + entries[1..]
    else [entries[0]] + SetKey(entries[1..], key, v)
  }

  /** `list(value)`: a list's items, a string's characters, a dict's keys; other values make
      `list` raise. */
  function ListOf(j: Json): Option<seq<Json>> {
    match j
    case JList(items) => Some(items)
    case JStr(s) => Some(seq(|s|, i requires 0 <= i < |s| => JStr([s[i]])))
    case JObj(entries) =>
      var keys := Keys(entries);
      Some(seq(|keys|, i requires 0 <= i < |keys| => JStr(keys[i])))
    case _ => None
  }

  function StrList(xs: seq<string>): (r: seq<Json>)
    ensures |r| == |xs| && forall i :: 0 <= i < |xs| ==> r[i] == JStr(xs[i])
  {
    seq(|xs|, i requires 0 <= i < |xs| => JStr(xs[i]))
  }

  function DepsOf(deps: map<string, seq<string>>, id: string): seq<string> {
    if id in deps then deps[id] else []
  }

  // ---------------------------------------------------------------------------
  // _update_capsules, one capsule

  /** What the capsule loop does with one capsule: nothing, or write this payload. */
  datatype CapsuleAction = Keep | Rewrite(payload: seq<(string, Json)>)

  /** `if list(d.get(key, [])) != wanted: d[key] = wanted`: whether the field changed, and the
      updated dict. `None` stands for `list()` raising. */
  function Refresh(entries: seq<(string, Json)>, key: string, wanted: seq<Json>): Option<(bool, seq<(string, Json)>)> {
    var current :- ListOf(GetOr(entries, key, JList([])));
    if current != wanted then Some((true, SetKey(entries, key, JList(wanted)))) else Some((false, entries))
  }

  /** The field is replaced exactly when its list differs, nothing else changes, and afterwards
      the field reads as the wanted list. */
  lemma RefreshSpec(entries: seq<(string, Json)>, key: string, wanted: seq<Json>)
    ensures var r := Refresh(entries, key, wanted);
            var current := ListOf(GetOr(entries, key, JList([])));
            r.Some? == current.Some?
            && (r.Some? ==>
                  (r.value.0 <==> current.value != wanted)
                  && ListOf(GetOr(r.value.1, key, JList([]))) == Some(wanted)
                  && (r.value.0 ==> Get(r.value.1, key) == Some(JList(wanted)))
                  && (!r.value.0 ==> r.value.1 == entries)
                  && forall k :: k != key ==> Get(r.value.1, k) == Get(entries, k))
  {
  }

  /** The body of `_update_capsules` for one capsule: deps that differ from the recomputed
      lists are replaced, and the capsule is stamped and written when something changed or a
      forced timestamp differs. `None` stands for `list()` raising on a malformed deps field. */
  function CapsuleStep(capsule: seq<(string, Json)>, depsOut: map<string, seq<string>>, depsIn: map<string, seq<string>>,
                       timestamp: string, force: bool): Option<CapsuleAction>
  {
    var id := PyStr(GetOr(capsule, "id", JStr("")));
    var outs :- Refresh(capsule, "deps_out", StrList(DepsOf(depsOut, id)));
    var ins :- Refresh(outs.1, "deps_in", StrList(DepsOf(depsIn, id)));
    if outs.0 || ins.0 || (force && Get(ins.1, "generated_at") != Some(JStr(timestamp))) then
      Some(Rewrite(SetKey(ins.1, "generated_at", JStr(timestamp))))
    else Some(Keep)
  }

  /** The two refreshes of a capsule, with what they leave in the deps fields. */
  lemma RefreshBoth(capsule: seq<(string, Json)>, newOut: seq<Json>, newIn: seq<Json>)
    requires ListOf(GetOr(capsule, "deps_out", JList([]))).Some? && ListOf(GetOr(capsule, "deps_in", JList([]))).Some?
    ensures Refresh(capsule, "deps_out", newOut).Some?
    ensures var outs := Refresh(capsule, "deps_out", newOut).value;
            var ins := Refresh(outs.1, "deps_in", newIn);
            ins.Some?
            && (outs.0 <==> ListOf(GetOr(capsule, "deps_out", JList([]))).value != newOut)
            && (ins.value.0 <==> ListOf(GetOr(capsule, "deps_in", JList([]))).value != newIn)
            && ListOf(GetOr(ins.value.1, "deps_out", JList([]))) == Some(newOut)
            && ListOf(GetOr(ins.value.1, "deps_in", JList([]))) == Some(newIn)
            && forall k :: k != "deps_out" && k != "deps_in" ==> Get(ins.value.1, k) == Get(capsule, k)
  {
    RefreshSpec(capsule, "deps_out", newOut);
    var outs := Refresh(capsule, "deps_out", newOut).value;
    assert GetOr(outs.1, "deps_in", JList([])) == GetOr(capsule, "deps_in", JList([]));
    RefreshSpec(outs.1, "deps_in", newIn);
    var ins := Refresh(outs.1, "deps_in", newIn).value;
    assert GetOr(ins.1, "deps_out", JList([])) == GetOr(outs.1, "deps_out", JList([]));
  }

  /** A capsule is rewritten exactly when a deps list differs from the recomputed one or a
      forced timestamp differs. */
  lemma CapsuleRewriteWhen(capsule: seq<(string, Json)>, depsOut: map<string, seq<string>>, depsIn: map<string, seq<string>>,
                           timestamp: string, force: bool)
    requires ListOf(GetOr(capsule, "deps_out", JList([]))).Some? && ListOf(GetOr(capsule, "deps_in", JList([]))).Some?
    ensures var id := PyStr(GetOr(capsule, "id", JStr("")));
            var r := CapsuleStep(capsule, depsOut, depsIn, timestamp, force);
            r.Some?
            && (r.value.Rewrite? <==>
                  ListOf(GetOr(capsule, "deps_out", JList([]))).value != StrList(DepsOf(depsOut, id))
                  || ListOf(GetOr(capsule, "deps_in", JList([]))).value != StrList(DepsOf(depsIn, id))
                  || (force && Get(capsule, "generated_at") != Some(JStr(timestamp))))
  {
    var id := PyStr(GetOr(capsule, "id", JStr("")));
    RefreshBoth(capsule, StrList(DepsOf(depsOut, id)), StrList(DepsOf(depsIn, id)));
  }

  /** A rewritten capsule carries the recomputed lists and the timestamp, and keeps every other
      field. */
  lemma CapsuleRewriteContent(capsule: seq<(string, Json)>, depsOut: map<string, seq<string>>, depsIn: map<string, seq<string>>,
                              timestamp: string, force: bool)
    requires CapsuleStep(capsule, depsOut, depsIn, timestamp, force).Some?
    requires CapsuleStep(capsule, depsOut, depsIn, timestamp, force).value.Rewrite?
    ensures var id := PyStr(GetOr(capsule, "id", JStr("")));
            var p := CapsuleStep(capsule, depsOut, depsIn, timestamp, force).value.payload;
            ListOf(GetOr(p, "deps_out", JList([]))) == Some(StrList(DepsOf(depsOut, id)))
            && ListOf(GetOr(p, "deps_in", JList([]))) == Some(StrList(DepsOf(depsIn, id)))
            && Get(p, "generated_at") == Some(JStr(timestamp))
            && forall k :: k != "deps_out" && k != "deps_in" && k != "generated_at" ==> Get(p, k) == Get(capsule, k)
  {
    var id := PyStr(GetOr(capsule, "id", JStr("")));
    var newOut := StrList(DepsOf(depsOut, id));
    var newIn := StrList(DepsOf(depsIn, id));
    RefreshSpec(capsule, "deps_out", newOut);
    var outs := Refresh(capsule, "deps_out", newOut).value;
    RefreshSpec(outs.1, "deps_in", newIn);
    var ins := Refresh(outs.1, "deps_in", newIn).value;
    var p := SetKey(ins.1, "generated_at", JStr(timestamp));
    assert CapsuleStep(capsule, depsOut, depsIn, timestamp, force).value.payload == p;
    StampKeepsDeps(ins.1, timestamp);
  }

  /** Stamping a capsule leaves its deps fields as they were. */
  lemma StampKeepsDeps(e: seq<(string, Json)>, timestamp: string)
    ensures var p := SetKey(e, "generated_at", JStr(timestamp));
            GetOr(p, "deps_out", JList([])) == GetOr(e, "deps_out", JList([]))
            && GetOr(p, "deps_in", JList([])) == GetOr(e, "deps_in", JList([]))
  {
    var p := SetKey(e, "generated_at", JStr(timestamp));
    assert Get(p, "deps_out") == Get(e, "deps_out");
    assert Get(p, "deps_in") == Get(e, "deps_in");
  }

  /** After a rewrite the capsule is up to date: processing it again keeps it. */
  lemma CapsuleStepSettles(capsule: seq<(string, Json)>, depsOut: map<string, seq<string>>, depsIn: map<string, seq<string>>,
                           timestamp: string, force: bool)
    requires CapsuleStep(capsule, depsOut, depsIn, timestamp, force).Some?
    requires CapsuleStep(capsule, depsOut, depsIn, timestamp, force).value.Rewrite?
    ensures var p := CapsuleStep(capsule, depsOut, depsIn, timestamp, force).value.payload;
            CapsuleStep(p, depsOut, depsIn, timestamp, force) == Some(Keep)
  {
    var p := CapsuleStep(capsule, depsOut, depsIn, timestamp, force).value.payload;
    CapsuleRewriteContent(capsule, depsOut, depsIn, timestamp, force);
    assert Get(p, "id") == Get(capsule, "id");
    var id := PyStr(GetOr(capsule, "id", JStr("")));
    var newOut := StrList(DepsOf(depsOut, id));
    var newIn := StrList(DepsOf(depsIn, id));
    RefreshSpec(p, "deps_out", newOut);
    assert Refresh(p, "deps_out", newOut) == Some((false, p));
    RefreshSpec(p, "deps_in", newIn);
    assert Refresh(p, "deps_in", newIn) == Some((false, p));
  }

  // ---------------------------------------------------------------------------
  // Files

  /** The contents of the files the tool touches, by path. */
  type Files = map<Paths.PurePath, string>

  /** `path / name`. */
  function Child(dir: Paths.PurePath, name: string): (r: Paths.PurePath)
    ensures Paths.Parent(r) == dir
    ensures |r.parts| == |dir.parts| + 1
  {
    var r := Paths.PurePath(dir.root, dir.parts + [name]);
    assert r.parts[..|dir.parts|] == dir.parts;
    r
  }

  /** How files are read and written: `json.loads`, `_dump_json`, and `--dry-run`. */
  datatype Env = Env(parse: string -> Option<Json>, dump: Json -> string, dryRun: bool)

  /** The outcome of a step that may raise: the files as left behind, and whether it raised. */
  datatype Run = Run(files: Files, failed: bool)

  /** Whether `text` differs from what `path` holds; a missing file always differs. */
  predicate Differs(files: Files, path: Paths.PurePath, text: string) {
    path !in files || files[path] != text
  }

  /** The files after `_write_json_if_changed`: `text` lands at `path` unless this is a dry run,
      and no other file changes. */
  function Written(files: Files, path: Paths.PurePath, text: string, dryRun: bool): (r: Files)
    ensures dryRun ==> r == files
    ensures !dryRun ==> r.Keys == files.Keys + {path} && r[path] == text
    ensures forall q :: q != path ==> (q in r <==> q in files)
    ensures forall q :: q in files && q != path ==> r[q] == files[q]
  {
    if Differs(files, path, text) && !dryRun then files[path := text] else files
  }

  /** `dict(_load_json(path))`: the object stored at `path`; `None` when the file is missing,
      does not parse, or holds something other than an object. */
  function LoadObject(files: Files, path: Paths.PurePath, parse: string -> Option<Json>): (r: Option<seq<(string, Json)>>)
    ensures r.Some? <==> path in files && parse(files[path]).Some? && parse(files[path]).value.JObj?
    ensures r.Some? ==> parse(files[path]) == Some(JObj(r.value))
  {
    if path in files then
      match parse(files[path])
      case Some(JObj(entries)) => Some(entries)
      case _ => None
    else None
  }

  /** What a capsule pass needs: the recomputed lists, the timestamp, and whether a differing
      timestamp forces a rewrite. */
  datatype CapsuleJob = CapsuleJob(depsOut: map<string, seq<string>>, depsIn: map<string, seq<string>>,
                                   timestamp: string, force: bool)

  /** One iteration of the loop in `_update_capsules`. */
  function CapsuleAt(files: Files, cap: Paths.PurePath, job: CapsuleJob, env: Env): (r: Run)
    ensures forall q :: q != cap ==> (q in r.files <==> q in files)
    ensures forall q :: q in files && q != cap ==> r.files[q] == files[q]
  {
    match LoadObject(files, cap, env.parse)
    case None => Run(files, true)
    case Some(capsule) =>
      match CapsuleStep(capsule, job.depsOut, job.depsIn, job.timestamp, job.force)
      case None => Run(files, true)
      case Some(Keep) => Run(files, false)
      case Some(Rewrite(payload)) => Run(Written(files, cap, env.dump(JObj(payload)), env.dryRun), false)
  }

  /** `_update_capsules` over the listed capsule files, stopping at the first that raises. */
  function Capsules(files: Files, caps: seq<Paths.PurePath>, job: CapsuleJob, env: Env): (r: Run)
    decreases |caps|
  {
    if caps == [] then Run(files, false)
    else
      var step := CapsuleAt(files, caps[0], job, env);
      if step.failed then step else Capsules(step.files, caps[1..], job, env)
  }

  /** `_update_hot_timestamp`. */
  function HotRun(files: Files, hot: Paths.PurePath, timestamp: string, env: Env): (r: Run)
    ensures forall q :: q != hot ==> (q in r.files <==> q in files)
    ensures forall q :: q in files && q != hot ==> r.files[q] == files[q]
  {
    if hot !in files then Run(files, false)
    else
      match LoadObject(files, hot, env.parse)
      case None => Run(files, true)
      case Some(payload) =>
        if Get(payload, "generated_at") == Some(JStr(timestamp)) then Run(files, false)
        else
          var stamped := SetKey(payload, "generated_at", JStr(timestamp));
          Run(Written(files, hot, env.dump(JObj(stamped)), env.dryRun), false)
  }

  /** The `hot.json` beside an index. */
  function HotPath(index: Paths.PurePath): Paths.PurePath {
    Child(Paths.Parent(index), "hot.json")
  }

  /** The `caps` directory beside an index. */
  function CapsDir(index: Paths.PurePath): Paths.PurePath {
    Child(Paths.Parent(index), "caps")
  }

  /** Writing the stamped index, then refreshing `hot.json` when the write changed something. */
  function IndexRun(files: Files, index: Paths.PurePath, payload: seq<(string, Json)>, now: string, env: Env): Run {
    var text := env.dump(JObj(payload));
    if Differs(files, index, text) then HotRun(Written(files, index, text, env.dryRun), HotPath(index), now, env)
    else Run(files, false)
  }

  /** The edges `_update_target` normalises: the stored list, or none when it is not a list. */
  function IndexEdges(payload: seq<(string, Json)>): seq<Json> {
    match GetOr(payload, "edges", JList([]))
    case JList(items) => items
    case _ => []
  }

  /** What `_update_target` decides from the loaded index: the normalised edges, the payload
      to write, whether to write it, and the stored timestamp as `str`. */
  datatype Plan = Plan(norm: seq<Pair>, forWrite: seq<(string, Json)>, writeIndex: bool, existing: string)

  /** The decisions of `_update_target`; `None` when `list()` rejects the stored edges. The
      index is rewritten when it is emitted and its edges are not the normalised ones or its
      `generated_at` is missing or not a string. */
  function PlanOf(payload: seq<(string, Json)>, emitIndex: bool): (r: Option<Plan>)
    ensures r.None? <==> ListOf(GetOr(payload, "edges", JList([]))).None?
    ensures r.Some? ==>
              var stored := ListOf(GetOr(payload, "edges", JList([]))).value;
              var p := r.value;
              p.norm == Normalised(IndexEdges(payload))
              && p.existing == PyStr(GetOr(payload, "generated_at", JStr("")))
              && ListOf(GetOr(p.forWrite, "edges", JList([]))) == Some(EdgesJson(p.norm))
              && (forall k :: k != "edges" ==> Get(p.forWrite, k) == Get(payload, k))
              && (p.writeIndex <==>
                    emitIndex && (stored != EdgesJson(p.norm)
                                  || Get(payload, "generated_at").None? || !Get(payload, "generated_at").value.JStr?))
  {
    var norm := Normalised(IndexEdges(payload));
    var stored :- ListOf(GetOr(payload, "edges", JList([])));
    var existing := PyStr(GetOr(payload, "generated_at", JStr("")));
    var edgesChanged := EdgesJson(norm) != stored;
    var forWrite := if edgesChanged then SetKey(payload, "edges", JList(EdgesJson(norm))) else payload;
    Some(Plan(norm, forWrite, emitIndex && (edgesChanged || Get(forWrite, "generated_at") != Some(JStr(existing))), existing))
  }

  /** The index half of `_update_target`. */
  function IndexPhase(files: Files, index: Paths.PurePath, plan: Plan, now: string, env: Env): Run {
    if plan.writeIndex then IndexRun(files, index, SetKey(plan.forWrite, "generated_at", JStr(now)), now, env)
    else Run(files, false)
  }

  /** The capsule half of `_update_target`, run on what the index half left. */
  function CapsPhase(after: Run, index: Paths.PurePath, plan: Plan, emitIndex: bool, emitCaps: bool, now: string,
                     listing: Paths.PurePath -> Option<seq<Paths.PurePath>>, env: Env): Run
  {
    if after.failed || !emitCaps || listing(CapsDir(index)).None? then after
    else
      var stamp := if plan.writeIndex then now else plan.existing;
      Capsules(after.files, listing(CapsDir(index)).value,
               CapsuleJob(SortedOut(plan.norm), SortedIn(plan.norm), stamp, emitIndex && stamp != plan.existing), env)
  }

  /** `_update_target` for one index file; `now` is what the clock reads, and `listing` gives the
      sorted `*.json` files of a directory, or `None` when it does not exist. */
  function TargetRun(files: Files, index: Paths.PurePath, emitIndex: bool, emitCaps: bool, now: string,
                     listing: Paths.PurePath -> Option<seq<Paths.PurePath>>, env: Env): Run
  {
    match LoadObject(files, index, env.parse)
    case None => Run(files, true)
    case Some(payload) =>
      match PlanOf(payload, emitIndex)
      case None => Run(files, true)
      case Some(plan) =>
        CapsPhase(IndexPhase(files, index, plan, now, env), index, plan, emitIndex, emitCaps, now, listing, env)
  }

  // ---------------------------------------------------------------------------
  // What the passes guarantee

  /** A dry run changes no file. */
  lemma {:induction false} CapsulesDryRun(files: Files, caps: seq<Paths.PurePath>, job: CapsuleJob, env: Env)
    requires env.dryRun
    ensures Capsules(files, caps, job, env).files == files
    decreases |caps|
  {
    if caps != [] {
      CapsulesDryRun(CapsuleAt(files, caps[0], job, env).files, caps[1..], job, env);
    }
  }

  /** A capsule pass leaves every file it was not given alone. */
  lemma {:induction false} CapsulesFrame(files: Files, caps: seq<Paths.PurePath>, job: CapsuleJob, env: Env, q: Paths.PurePath)
    requires q !in caps
    ensures var r := Capsules(files, caps, job, env).files;
            (q in r <==> q in files) && (q in files ==> r[q] == files[q])
    decreases |caps|
  {
    if caps != [] {
      CapsulesFrame(CapsuleAt(files, caps[0], job, env).files, caps[1..], job, env, q);
    }
  }

  /** `_dump_json` followed by `json.load` gives back an object with the same fields (the keys
      may come back in another order, since the dump sorts them). */
  ghost predicate ReadsBack(env: Env) {
    forall entries: seq<(string, Json)> :: ReadBack(env, entries)
  }

  ghost predicate ReadBack(env: Env, entries: seq<(string, Json)>) {
    match env.parse(env.dump(JObj(entries)))
    case Some(JObj(e)) => SameFields(e, entries)
    case _ => false
  }

  ghost predicate SameFields(a: seq<(string, Json)>, b: seq<(string, Json)>) {
    forall k :: Get(a, k) == Get(b, k)
  }

  /** Whether a capsule is left alone is decided by its fields alone. */
  lemma KeepByFields(a: seq<(string, Json)>, b: seq<(string, Json)>, depsOut: map<string, seq<string>>,
                     depsIn: map<string, seq<string>>, timestamp: string, force: bool)
    requires SameFields(a, b)
    requires CapsuleStep(b, depsOut, depsIn, timestamp, force) == Some(Keep)
    ensures CapsuleStep(a, depsOut, depsIn, timestamp, force) == Some(Keep)
  {
    assert Get(a, "id") == Get(b, "id") && Get(a, "deps_out") == Get(b, "deps_out");
    assert Get(a, "deps_in") == Get(b, "deps_in") && Get(a, "generated_at") == Get(b, "generated_at");
    var id := PyStr(GetOr(b, "id", JStr("")));
    var newOut := StrList(DepsOf(depsOut, id));
    var newIn := StrList(DepsOf(depsIn, id));
    RefreshSpec(b, "deps_out", newOut);
    RefreshSpec(a, "deps_out", newOut);
    RefreshSpec(b, "deps_in", newIn);
    RefreshSpec(a, "deps_in", newIn);
  }

  /** A capsule file that loads and that the capsule loop would leave alone. */
  predicate Settled(files: Files, cap: Paths.PurePath, job: CapsuleJob, env: Env) {
    var loaded := LoadObject(files, cap, env.parse);
    loaded.Some? && CapsuleStep(loaded.value, job.depsOut, job.depsIn, job.timestamp, job.force) == Some(Keep)
  }

  /** Once processed outside a dry run, a capsule is settled. */
  lemma CapsuleAtSettles(files: Files, cap: Paths.PurePath, job: CapsuleJob, env: Env)
    requires !env.dryRun && ReadsBack(env)
    requires !CapsuleAt(files, cap, job, env).failed
    ensures Settled(CapsuleAt(files, cap, job, env).files, cap, job, env)
  {
    var capsule := LoadObject(files, cap, env.parse).value;
    var action := CapsuleStep(capsule, job.depsOut, job.depsIn, job.timestamp, job.force).value;
    if action.Rewrite? {
      var p := action.payload;
      CapsuleStepSettles(capsule, job.depsOut, job.depsIn, job.timestamp, job.force);
      assert ReadBack(env, p);
      var e := env.parse(env.dump(JObj(p))).value.entries;
      KeepByFields(e, p, job.depsOut, job.depsIn, job.timestamp, job.force);
    }
  }

  /** After a successful pass outside a dry run, every listed capsule is settled. */
  lemma {:induction false} CapsulesSettle(files: Files, caps: seq<Paths.PurePath>, job: CapsuleJob, env: Env)
    requires !env.dryRun && ReadsBack(env)
    requires !Capsules(files, caps, job, env).failed
    ensures forall c :: c in caps ==> Settled(Capsules(files, caps, job, env).files, c, job, env)
    decreases |caps|
  {
    if caps != [] {
      var step := CapsuleAt(files, caps[0], job, env);
      var r := Capsules(files, caps, job, env).files;
      CapsuleAtSettles(files, caps[0], job, env);
      CapsulesSettle(step.files, caps[1..], job, env);
      if caps[0] !in caps[1..] {
        CapsulesFrame(step.files, caps[1..], job, env, caps[0]);
        assert LoadObject(r, caps[0], env.parse) == LoadObject(step.files, caps[0], env.parse);
      }
      forall c | c in caps ensures Settled(r, c, job, env) {
        if c != caps[0] {
          assert c in caps[1..];
        }
      }
    }
  }

  /** A pass over settled capsules writes nothing and does not fail. */
  lemma {:induction false} SettledPassKeeps(files: Files, caps: seq<Paths.PurePath>, job: CapsuleJob, env: Env)
    requires forall c :: c in caps ==> Settled(files, c, job, env)
    ensures Capsules(files, caps, job, env) == Run(files, false)
    decreases |caps|
  {
    if caps != [] {
      assert Settled(files, caps[0], job, env);
      assert forall c :: c in caps[1..] ==> c in caps;
      SettledPassKeeps(files, caps[1..], job, env);
    }
  }

  /** Running the capsule pass a second time writes nothing. */
  lemma CapsulesIdempotent(files: Files, caps: seq<Paths.PurePath>, job: CapsuleJob, env: Env)
    requires !env.dryRun && ReadsBack(env)
    requires !Capsules(files, caps, job, env).failed
    ensures var once := Capsules(files, caps, job, env).files;
            Capsules(once, caps, job, env) == Run(once, false)
  {
    CapsulesSettle(files, caps, job, env);
    SettledPassKeeps(Capsules(files, caps, job, env).files, caps, job, env);
  }

  /** A dry run of `_update_target` changes no file. */
  lemma TargetDryRun(files: Files, index: Paths.PurePath, emitIndex: bool, emitCaps: bool, now: string,
                     listing: Paths.PurePath -> Option<seq<Paths.PurePath>>, env: Env)
    requires env.dryRun
    ensures TargetRun(files, index, emitIndex, emitCaps, now, listing, env).files == files
  {
    var loaded := LoadObject(files, index, env.parse);
    if loaded.Some? && PlanOf(loaded.value, emitIndex).Some? {
      var plan := PlanOf(loaded.value, emitIndex).value;
      var after := IndexPhase(files, index, plan, now, env);
      IndexPhaseDryRun(files, index, plan, now, env);
      CapsPhaseDryRun(after, index, plan, emitIndex, emitCaps, now, listing, env);
    }
  }

  lemma IndexPhaseDryRun(files: Files, index: Paths.PurePath, plan: Plan, now: string, env: Env)
    requires env.dryRun
    ensures IndexPhase(files, index, plan, now, env).files == files
  {
  }

  lemma CapsPhaseDryRun(after: Run, index: Paths.PurePath, plan: Plan, emitIndex: bool, emitCaps: bool, now: string,
                        listing: Paths.PurePath -> Option<seq<Paths.PurePath>>, env: Env)
    requires env.dryRun
    ensures CapsPhase(after, index, plan, emitIndex, emitCaps, now, listing, env).files == after.files
  {
    if !after.failed && emitCaps && listing(CapsDir(index)).Some? {
      var stamp := if plan.writeIndex then now else plan.existing;
      CapsulesDryRun(after.files, listing(CapsDir(index)).value,
                     CapsuleJob(SortedOut(plan.norm), SortedIn(plan.norm), stamp, emitIndex && stamp != plan.existing), env);
    }
  }

  /** `q` is present in `b` exactly when in `a`, with the same contents. */
  predicate SameFile(a: Files, b: Files, q: Paths.PurePath) {
    (q in b <==> q in a) && (q in a ==> b[q] == a[q])
  }

  /** `_update_target` writes at most the index, the `hot.json` beside it and the listed
      capsules. */
  lemma TargetFrame(files: Files, index: Paths.PurePath, emitIndex: bool, emitCaps: bool, now: string,
                    listing: Paths.PurePath -> Option<seq<Paths.PurePath>>, env: Env, q: Paths.PurePath)
    requires q != index && q != HotPath(index)
    requires listing(CapsDir(index)).Some? ==> q !in listing(CapsDir(index)).value
    ensures var r := TargetRun(files, index, emitIndex, emitCaps, now, listing, env).files;
            (q in r <==> q in files) && (q in files ==> r[q] == files[q])
  {
    var loaded := LoadObject(files, index, env.parse);
    if loaded.Some? && PlanOf(loaded.value, emitIndex).Some? {
      var plan := PlanOf(loaded.value, emitIndex).value;
      var after := IndexPhase(files, index, plan, now, env);
      IndexPhaseFrame(files, index, plan, now, env, q);
      CapsPhaseFrame(after, index, plan, emitIndex, emitCaps, now, listing, env, q);
      assert SameFile(files, TargetRun(files, index, emitIndex, emitCaps, now, listing, env).files, q);
    }
  }

  lemma IndexPhaseFrame(files: Files, index: Paths.PurePath, plan: Plan, now: string, env: Env, q: Paths.PurePath)
    requires q != index && q != HotPath(index)
    ensures SameFile(files, IndexPhase(files, index, plan, now, env).files, q)
  {
  }

  lemma CapsPhaseFrame(after: Run, index: Paths.PurePath, plan: Plan, emitIndex: bool, emitCaps: bool, now: string,
                       listing: Paths.PurePath -> Option<seq<Paths.PurePath>>, env: Env, q: Paths.PurePath)
    requires listing(CapsDir(index)).Some? ==> q !in listing(CapsDir(index)).value
    ensures SameFile(after.files, CapsPhase(after, index, plan, emitIndex, emitCaps, now, listing, env).files, q)
  {
    if !after.failed && emitCaps && listing(CapsDir(index)).Some? {
      var stamp := if plan.writeIndex then now else plan.existing;
      CapsulesFrame(after.files, listing(CapsDir(index)).value,
                    CapsuleJob(SortedOut(plan.norm), SortedIn(plan.norm), stamp, emitIndex && stamp != plan.existing), env, q);
    }
  }

  /** Outside a dry run, the stamped index is what the file holds after the index write and
      the `hot.json` refresh, even when `hot.json` is the index itself. */
  lemma IndexRunWrites(files: Files, index: Paths.PurePath, payload: seq<(string, Json)>, now: string, env: Env)
    requires !env.dryRun && ReadsBack(env)
    requires Get(payload, "generated_at") == Some(JStr(now))
    requires !IndexRun(files, index, payload, now, env).failed
    ensures var r := IndexRun(files, index, payload, now, env).files;
            index in r && r[index] == env.dump(JObj(payload))
  {
    var text := env.dump(JObj(payload));
    if Differs(files, index, text) {
      var written := Written(files, index, text, false);
      if HotPath(index) == index {
        assert ReadBack(env, payload);
      }
    }
  }

  /** After a successful `_update_target` outside a dry run that emits the index, the index
      file holds the normalised edges and a string timestamp. */
  lemma IndexHoldsNormalisedEdges(files: Files, index: Paths.PurePath, emitCaps: bool, now: string,
                                  listing: Paths.PurePath -> Option<seq<Paths.PurePath>>, env: Env)
    requires !env.dryRun && ReadsBack(env)
    requires listing(CapsDir(index)).Some? ==> index !in listing(CapsDir(index)).value
    requires !TargetRun(files, index, true, emitCaps, now, listing, env).failed
    ensures LoadObject(files, index, env.parse).Some?
    ensures var before := LoadObject(files, index, env.parse).value;
            var after := LoadObject(TargetRun(files, index, true, emitCaps, now, listing, env).files, index, env.parse);
            after.Some?
            && ListOf(GetOr(after.value, "edges", JList([]))) == Some(EdgesJson(Normalised(IndexEdges(before))))
            && Get(after.value, "generated_at").Some? && Get(after.value, "generated_at").value.JStr?
  {
    var payload := LoadObject(files, index, env.parse).value;
    var plan := PlanOf(payload, true).value;
    var afterIndex := IndexPhase(files, index, plan, now, env);
    IndexPhaseHolds(files, index, payload, plan, now, env);
    CapsPhaseFrame(afterIndex, index, plan, true, emitCaps, now, listing, env, index);
  }

  /** What the index file holds after the index half of `_update_target`. */
  lemma IndexPhaseHolds(files: Files, index: Paths.PurePath, payload: seq<(string, Json)>, plan: Plan, now: string, env: Env)
    requires !env.dryRun && ReadsBack(env)
    requires LoadObject(files, index, env.parse) == Some(payload) && PlanOf(payload, true) == Some(plan)
    requires !IndexPhase(files, index, plan, now, env).failed
    ensures var after := LoadObject(IndexPhase(files, index, plan, now, env).files, index, env.parse);
            after.Some?
            && ListOf(GetOr(after.value, "edges", JList([]))) == Some(EdgesJson(plan.norm))
            && Get(after.value, "generated_at").Some? && Get(after.value, "generated_at").value.JStr?
  {
    if plan.writeIndex {
      StampedIndexHolds(files, index, plan, now, env);
    }
  }

  /** The index file after the stamped payload was written and read back. */
  lemma StampedIndexHolds(files: Files, index: Paths.PurePath, plan: Plan, now: string, env: Env)
    requires !env.dryRun && ReadsBack(env)
    requires ListOf(GetOr(plan.forWrite, "edges", JList([]))) == Some(EdgesJson(plan.norm))
    requires !IndexRun(files, index, SetKey(plan.forWrite, "generated_at", JStr(now)), now, env).failed
    ensures var after := LoadObject(IndexRun(files, index, SetKey(plan.forWrite, "generated_at", JStr(now)), now, env).files,
                                    index, env.parse);
            after.Some?
            && ListOf(GetOr(after.value, "edges", JList([]))) == Some(EdgesJson(plan.norm))
            && Get(after.value, "generated_at") == Some(JStr(now))
  {
    var stamped := SetKey(plan.forWrite, "generated_at", JStr(now));
    IndexRunWrites(files, index, stamped, now, env);
    ReadBackField(env, stamped, "edges");
    ReadBackField(env, stamped, "generated_at");
    assert Get(stamped, "edges") == Get(plan.forWrite, "edges");
  }

  /** A field of an object that was dumped and parsed back. */
  lemma ReadBackField(env: Env, entries: seq<(string, Json)>, k: string)
    requires ReadsBack(env)
    ensures var r := env.parse(env.dump(JObj(entries)));
            r.Some? && r.value.JObj? && Get(r.value.entries, k) == Get(entries, k)
  {
    assert ReadBack(env, entries);
  }

  // ---------------------------------------------------------------------------
  // parse_args and run_update

  /** The options `parse_args` returns. */
  datatype UpdateOptions = UpdateOptions(targets: seq<Paths.PurePath>, emitIndex: bool, emitCaps: bool, dryRun: bool)

  /** `value.strip()` of every piece. */
  function StripAll(pieces: seq<string>): (r: seq<string>)
    ensures |r| == |pieces| && forall i :: 0 <= i < |pieces| ==> r[i] == Strip(pieces[i])
  {
    seq(|pieces|, i requires 0 <= i < |pieces| => Strip(pieces[i]))
  }

  /** The non-empty strings, in order. */
  function NonBlank(xs: seq<string>): (r: seq<string>)
    ensures |r| <= |xs|
    ensures forall x :: x in r <==> x in xs && x != ""
  {
    if xs == [] then []
    else if xs[0] == "" then NonBlank(xs[1..])
    else [xs[0]] + NonBlank(xs[1..])
  }

  /** Some target remains exactly when some piece is not blank. */
  lemma PiecesExist(pieces: seq<string>)
    ensures NonBlank(StripAll(pieces)) != [] <==> exists x :: x in pieces && Strip(x) != ""
  {
    var stripped := StripAll(pieces);
    var r := NonBlank(stripped);
    if r != [] {
      assert r[0] in r;
      var i :| 0 <= i < |stripped| && stripped[i] == r[0];
      assert pieces[i] in pieces;
    }
    if x :| x in pieces && Strip(x) != "" {
      var i :| 0 <= i < |pieces| && pieces[i] == x;
      assert stripped[i] in stripped;
      assert Strip(x) in r;
    }
  }

  /** `parse_args`: `targets` is the `--targets` value, `emit` the `--emit` value (`index+caps`
      when omitted). An `Err` is an argparse error: an unknown `--emit`, or no non-blank target. */
  function ParseArgs(targets: string, emit: string, dryRun: bool): (r: Result<UpdateOptions, string>)
    ensures r.Ok? <==> (emit == "index" || emit == "caps" || emit == "index+caps")
                       && exists x :: x in Split(targets, ',') && Strip(x) != ""
    ensures r.Ok? ==> r.value.dryRun == dryRun
                      && (r.value.emitIndex <==> emit != "caps") && (r.value.emitCaps <==> emit != "index")
                      && r.value.targets != []
                      && forall i :: 0 <= i < |r.value.targets| ==> Paths.WellFormed(r.value.targets[i])
  {
    if emit != "index" && emit != "caps" && emit != "index+caps" then
      Err("argument --emit: invalid choice")
    else
      var pieces := NonBlank(StripAll(Split(targets, ',')));
      PiecesExist(Split(targets, ','));
      if pieces == [] then
        Err("--targets must contain at least one path")
      else
        Ok(UpdateOptions(TargetPaths(pieces), emit == "index" || emit == "index+caps",
                         emit == "caps" || emit == "index+caps", dryRun))
  }

  /** `Path(value)` of every piece. */
  function TargetPaths(pieces: seq<string>): (r: seq<Paths.PurePath>)
    ensures |r| == |pieces|
    ensures forall i :: 0 <= i < |pieces| ==> r[i] == Paths.FromString(pieces[i]) && Paths.WellFormed(r[i])
  {
    seq(|pieces|, i requires 0 <= i < |pieces| => Paths.FromString(pieces[i]))
  }

  /** Paths joined with commas come back as the targets, in order. */
  lemma ParseArgsJoined(paths: seq<string>, emit: string, dryRun: bool)
    requires paths != []
    requires forall i :: 0 <= i < |paths| ==> ',' !in paths[i] && paths[i] != "" && Strip(paths[i]) == paths[i]
    requires emit == "index" || emit == "caps" || emit == "index+caps"
    ensures var r := ParseArgs(Join(paths, ","), emit, dryRun);
            r.Ok? && |r.value.targets| == |paths|
            && forall i :: 0 <= i < |paths| ==> r.value.targets[i] == Paths.FromString(paths[i])
  {
    SplitJoin(paths, ',');
    KeepAllPieces(paths);
  }

  lemma {:induction false} KeepAllPieces(pieces: seq<string>)
    requires forall i :: 0 <= i < |pieces| ==> pieces[i] != "" && Strip(pieces[i]) == pieces[i]
    ensures NonBlank(StripAll(pieces)) == pieces
  {
    if pieces != [] {
      KeepAllPieces(pieces[1..]);
      assert StripAll(pieces) == [pieces[0]] + StripAll(pieces[1..]);
    }
  }

  /** `run_update`: the targets in order, stopping at the first that raises; `clock(k)` is
      what the clock reads while the `k`-th target is processed. */
  function UpdateRun(files: Files, targets: seq<Paths.PurePath>, k: nat, emitIndex: bool, emitCaps: bool,
                     clock: nat -> string, listing: Paths.PurePath -> Option<seq<Paths.PurePath>>, env: Env): Run
    decreases |targets|
  {
    if targets == [] then Run(files, false)
    else
      var step := TargetRun(files, targets[0], emitIndex, emitCaps, clock(k), listing, env);
      if step.failed then step else UpdateRun(step.files, targets[1..], k + 1, emitIndex, emitCaps, clock, listing, env)
  }

  /** `run_update` from the `i`-th target on: that target, then the rest unless it raised. */
  lemma UpdateRunStep(files: Files, targets: seq<Paths.PurePath>, i: nat, emitIndex: bool, emitCaps: bool,
                      clock: nat -> string, listing: Paths.PurePath -> Option<seq<Paths.PurePath>>, env: Env)
    requires i < |targets|
    ensures var step := TargetRun(files, targets[i], emitIndex, emitCaps, clock(i), listing, env);
            UpdateRun(files, targets[i..], i, emitIndex, emitCaps, clock, listing, env)
            == if step.failed then step else UpdateRun(step.files, targets[i + 1..], i + 1, emitIndex, emitCaps, clock, listing, env)
  {
    assert targets[i..][1..] == targets[i + 1..];
  }

  /** `--dry-run` leaves every file as it was. */
  lemma {:induction false} UpdateDryRun(files: Files, targets: seq<Paths.PurePath>, k: nat, emitIndex: bool, emitCaps: bool,
                                        clock: nat -> string, listing: Paths.PurePath -> Option<seq<Paths.PurePath>>, env: Env)
    requires env.dryRun
    ensures UpdateRun(files, targets, k, emitIndex, emitCaps, clock, listing, env).files == files
    decreases |targets|
  {
    if targets != [] {
      TargetDryRun(files, targets[0], emitIndex, emitCaps, clock(k), listing, env);
      UpdateDryRun(files, targets[1..], k + 1, emitIndex, emitCaps, clock, listing, env);
    }
  }

  /** The files a program run holds, and the operations of `update.py` that change them. */
  class Disk {
    var files: Files

    constructor(initial: Files)
      ensures files == initial
    {
      files := initial;
    }

    /** `_write_json_if_changed`: reports whether the serialised payload differs from the file,
        and writes it only then and only outside a dry run. */
    method WriteIfChanged(path: Paths.PurePath, payload: Json, env: Env) returns (changed: bool)
      modifies this
      ensures changed <==> Differs(old(files), path, env.dump(payload))
      ensures files == Written(old(files), path, env.dump(payload), env.dryRun)
    {
      var text := env.dump(payload);
      if path in files && files[path] == text {
        return false;
      }
      if env.dryRun {
        return true;
      }
      files := files[path := text];
      return true;
    }

    /** `_update_capsules` over `caps`, the sorted capsule files; `ok` is false when a capsule
        fails to load or has a deps field `list()` rejects. */
    method UpdateCapsules(caps: seq<Paths.PurePath>, job: CapsuleJob, env: Env) returns (ok: bool)
      modifies this
      ensures Run(files, !ok) == Capsules(old(files), caps, job, env)
    {
      var i := 0;
      while i < |caps|
        invariant 0 <= i <= |caps|
        invariant Capsules(files, caps[i..], job, env) == Capsules(old(files), caps, job, env)
      {
        var loaded := LoadObject(files, caps[i], env.parse);
        if loaded.None? {
          return false;
        }
        var action := CapsuleStep(loaded.value, job.depsOut, job.depsIn, job.timestamp, job.force);
        if action.None? {
          return false;
        }
        if action.value.Rewrite? {
          var written := WriteIfChanged(caps[i], JObj(action.value.payload), env);
        }
        assert caps[i..][1..] == caps[i + 1..];
        i := i + 1;
      }
      return true;
    }

    /** `_update_hot_timestamp`: a present `hot.json` is stamped with `timestamp` unless it
        already carries it. */
    method UpdateHotTimestamp(hot: Paths.PurePath, timestamp: string, env: Env) returns (ok: bool)
      modifies this
      ensures Run(files, !ok) == HotRun(old(files), hot, timestamp, env)
    {
      if hot !in files {
        return true;
      }
      var loaded := LoadObject(files, hot, env.parse);
      if loaded.None? {
        return false;
      }
      var payload := loaded.value;
      if Get(payload, "generated_at") == Some(JStr(timestamp)) {
        return true;
      }
      payload := SetKey(payload, "generated_at", JStr(timestamp));
      var written := WriteIfChanged(hot, JObj(payload), env);
      return true;
    }

    /** `_update_target`. */
    method UpdateTarget(index: Paths.PurePath, emitIndex: bool, emitCaps: bool, now: string,
                        listing: Paths.PurePath -> Option<seq<Paths.PurePath>>, env: Env) returns (ok: bool)
      modifies this
      ensures Run(files, !ok) == TargetRun(old(files), index, emitIndex, emitCaps, now, listing, env)
    {
      var loaded := LoadObject(files, index, env.parse);
      if loaded.None? {
        return false;
      }
      var payload := loaded.value;
      var planned := PlanTarget(payload, emitIndex);
      if planned.None? {
        return false;
      }
      var plan := planned.value;
      var depsOut, depsIn := PrepareDependencies(plan.norm);
      var existing, forWrite, writeIndex := plan.existing, plan.forWrite, plan.writeIndex;
      ok := true;
      if writeIndex {
        ok := WriteIndex(index, forWrite, now, env);
      }
      ghost var after := Run(files, !ok);
      assert after == IndexPhase(old(files), index, plan, now, env);
      if ok && emitCaps {
        var listed := listing(CapsDir(index));
        if listed.Some? {
          // the stamp is the new timestamp when the index was rewritten, the stored one otherwise
          var stamp := if writeIndex then now else existing;
          ok := UpdateCapsules(listed.value, CapsuleJob(depsOut, depsIn, stamp, emitIndex && stamp != existing), env);
        }
      }
    }

    /** The decisions `_update_target` takes from the loaded index, before writing anything. */
    static method PlanTarget(payload: seq<(string, Json)>, emitIndex: bool) returns (r: Option<Plan>)
      ensures r == PlanOf(payload, emitIndex)
    {
      var normalised := NormaliseEdges(IndexEdges(payload));
      var existing := PyStr(GetOr(payload, "generated_at", JStr("")));
      var stored := ListOf(GetOr(payload, "edges", JList([])));
      if stored.None? {
        return None;
      }
      var edgesChanged := EdgesJson(normalised) != stored.value;
      var forWrite := payload;
      if edgesChanged {
        forWrite := SetKey(forWrite, "edges", JList(EdgesJson(normalised)));
      }
      var writeIndex := emitIndex && (edgesChanged || Get(forWrite, "generated_at") != Some(JStr(existing)));
      return Some(Plan(normalised, forWrite, writeIndex, existing));
    }

    /** The index write of `_update_target`: the payload is stamped with `now` and written, and
        `hot.json` is refreshed when the write changed something. */
    method WriteIndex(index: Paths.PurePath, forWrite: seq<(string, Json)>, now: string, env: Env) returns (ok: bool)
      modifies this
      ensures Run(files, !ok) == IndexRun(old(files), index, SetKey(forWrite, "generated_at", JStr(now)), now, env)
    {
      var stamped := SetKey(forWrite, "generated_at", JStr(now));
      var written := WriteIfChanged(index, JObj(stamped), env);
      ok := true;
      if written {
        ok := UpdateHotTimestamp(HotPath(index), now, env);
      }
    }

    /** `run_update`. */
    method RunUpdate(options: UpdateOptions, clock: nat -> string, listing: Paths.PurePath -> Option<seq<Paths.PurePath>>,
                     parse: string -> Option<Json>, dump: Json -> string) returns (ok: bool)
      modifies this
      ensures Run(files, !ok) == UpdateRun(old(files), options.targets, 0, options.emitIndex, options.emitCaps, clock, listing,
                                           Env(parse, dump, options.dryRun))
    {
      var env := Env(parse, dump, options.dryRun);
      var targets := options.targets;
      var i := 0;
      assert targets[i..] == targets;
      while i < |targets|
        invariant 0 <= i <= |targets|
        invariant UpdateRun(files, targets[i..], i, options.emitIndex, options.emitCaps, clock, listing, env)
                  == UpdateRun(old(files), targets, 0, options.emitIndex, options.emitCaps, clock, listing, env)
      {
        ghost var before := files;
        ok := UpdateTarget(targets[i], options.emitIndex, options.emitCaps, clock(i), listing, env);
        UpdateRunStep(before, targets, i, options.emitIndex, options.emitCaps, clock, listing, env);
        if !ok {
          return;
        }
        i := i + 1;
      }
      assert targets[i..] == [];
      return true;
    }

    /** `main`: exit status 2 for an argparse error (nothing is touched), 1 when an update
        raises, 0 otherwise. */
    method Execute(targets: string, emit: string, dryRun: bool, clock: nat -> string,
                   listing: Paths.PurePath -> Option<seq<Paths.PurePath>>,
                   parse: string -> Option<Json>, dump: Json -> string) returns (status: int)
      modifies this
      ensures var options := ParseArgs(targets, emit, dryRun);
              if options.Err? then status == 2 && files == old(files)
              else
                var r := UpdateRun(old(files), options.value.targets, 0, options.value.emitIndex, options.value.emitCaps,
                                   clock, listing, Env(parse, dump, dryRun));
                files == r.files && (status == 0 <==> !r.failed) && (status != 0 ==> status == 1)
    {
      var options := ParseArgs(targets, emit, dryRun);
      if options.Err? {
        return 2;
      }
      var ok := RunUpdate(options.value, clock, listing, parse, dump);
      status := if ok then 0 else 1;
    }
  }
}

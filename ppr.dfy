/** `personalize_scores`: personalised PageRank by power iteration, with the rank of dangling
    nodes spread uniformly. Scores are exact reals; floating-point rounding is not modelled. */
module Ppr {
  import opened Json
  import opened ContextSignals
  import Neighbourhood

  // ---------------------------------------------------------------------------
  // Sums over vectors of reals

  function Sum(s: seq<real>): real {
    if s == [] then 0.0 else Sum(s[..|s| - 1]) + s[|s| - 1]
  }

  predicate NonNegative(s: seq<real>) {
    forall i :: 0 <= i < |s| ==> s[i] >= 0.0
  }

  lemma {:induction false} SumUpdate(s: seq<real>, i: nat, w: real)
    requires i < |s|
    ensures Sum(s[i := s[i] + w]) == Sum(s) + w
  {
    var t := s[i := s[i] + w];
    if i < |s| - 1 {
      assert t[..|t| - 1] == s[..|s| - 1][i := s[i] + w];
      SumUpdate(s[..|s| - 1], i, w);
    } else {
      assert t[..|t| - 1] == s[..|s| - 1];
    }
  }

  lemma SumUpdateOf(s: seq<real>, i: nat, w: real, t: seq<real>)
    requires i < |s| && t == s[i := s[i] + w]
    ensures Sum(t) == Sum(s) + w
  {
    SumUpdate(s, i, w);
  }

  lemma {:induction false} SumNonNegative(s: seq<real>)
    requires NonNegative(s)
    ensures Sum(s) >= 0.0
  {
    if s != [] {
      SumNonNegative(s[..|s| - 1]);
    }
  }

  function Scale(s: seq<real>, c: real): (r: seq<real>)
    ensures |r| == |s| && forall i :: 0 <= i < |s| ==> r[i] == c * s[i]
  {
    seq(|s|, i requires 0 <= i < |s| => c * s[i])
  }

  lemma {:induction false} SumScale(s: seq<real>, c: real)
    ensures Sum(Scale(s, c)) == c * Sum(s)
  {
    if s != [] {
      SumScale(s[..|s| - 1], c);
      var t := Scale(s, c);
      var u := Scale(s[..|s| - 1], c);
      forall i | 0 <= i < |s| - 1 ensures t[..|t| - 1][i] == u[i] {
        assert s[..|s| - 1][i] == s[i];
      }
      assert t[..|t| - 1] == u;
      assert t[|t| - 1] == c * s[|s| - 1];
    }
  }

  function Constant(n: nat, c: real): (r: seq<real>)
    ensures |r| == n && forall i :: 0 <= i < n ==> r[i] == c
  {
    seq(n, i => c)
  }

  lemma {:induction false} SumConstant(n: nat, c: real)
    ensures Sum(Constant(n, c)) == (n as real) * c
  {
    if n > 0 {
      SumConstant(n - 1, c);
      assert Constant(n, c)[..n - 1] == Constant(n - 1, c);
    }
  }

  /** The total rank held by the first `k` nodes that have (`linked`) or lack out-edges. */
  function MassOf(ranks: seq<real>, outdeg: seq<int>, k: nat, linked: bool): real
    requires k <= |ranks| && k <= |outdeg|
  {
    if k == 0 then 0.0
    else MassOf(ranks, outdeg, k - 1, linked) + (if (outdeg[k - 1] != 0) == linked then ranks[k - 1] else 0.0)
  }

  lemma {:induction false} MassSplit(ranks: seq<real>, outdeg: seq<int>, k: nat)
    requires k <= |ranks| && k <= |outdeg|
    ensures MassOf(ranks, outdeg, k, false) + MassOf(ranks, outdeg, k, true) == Sum(ranks[..k])
  {
    if k > 0 {
      MassSplit(ranks, outdeg, k - 1);
      assert ranks[..k][..k - 1] == ranks[..k - 1];
    }
  }

  lemma {:induction false} MassNonNegative(ranks: seq<real>, outdeg: seq<int>, k: nat, linked: bool)
    requires k <= |ranks| && k <= |outdeg| && NonNegative(ranks)
    ensures MassOf(ranks, outdeg, k, linked) >= 0.0
  {
    if k > 0 {
      MassNonNegative(ranks, outdeg, k - 1, linked);
    }
  }

  lemma {:induction false} NoLinkedMass(ranks: seq<real>, outdeg: seq<int>, k: nat)
    requires k <= |ranks| && k <= |outdeg|
    requires forall i :: 0 <= i < |outdeg| ==> outdeg[i] == 0
    ensures MassOf(ranks, outdeg, k, true) == 0.0
  {
    if k > 0 {
      NoLinkedMass(ranks, outdeg, k - 1);
    }
  }

  /** `sum(abs(next_ranks[idx] - ranks[idx]) ...)`: the L1 change between two rank vectors. */
  function L1(a: seq<real>, b: seq<real>): real
    requires |a| == |b|
  {
    if a == [] then 0.0
    else L1(a[..|a| - 1], b[..|b| - 1]) + (if a[|a| - 1] >= b[|b| - 1] then a[|a| - 1] - b[|b| - 1] else b[|b| - 1] - a[|a| - 1])
  }

  // ---------------------------------------------------------------------------
  // Indexing and the edge lists

  /** `id_to_index`: each id maps to the index of its last node, as the dict comprehension keeps it. */
  function IdToIndex(nodes: seq<Node>): (r: map<string, nat>)
    ensures forall id :: id in r ==> r[id] < |nodes|
  {
    if nodes == [] then map[]
    else IdToIndex(nodes[..|nodes| - 1])[NodeId(nodes[|nodes| - 1]) := |nodes| - 1]
  }

  /** The index holds exactly the node ids, each at the position of the last node carrying it. */
  lemma IdToIndexFacts(nodes: seq<Node>)
    ensures IdToIndex(nodes).Keys == Neighbourhood.NodeIds(nodes)
    ensures forall id :: id in IdToIndex(nodes) ==> NodeId(nodes[IdToIndex(nodes)[id]]) == id
    ensures forall id, j :: id in IdToIndex(nodes) && IdToIndex(nodes)[id] < j < |nodes| ==> NodeId(nodes[j]) != id
  {
    IdToIndexKeys(nodes);
    IdToIndexAt(nodes);
    IdToIndexLatest(nodes);
  }

  lemma {:induction false} IdToIndexKeys(nodes: seq<Node>)
    ensures IdToIndex(nodes).Keys == Neighbourhood.NodeIds(nodes)
  {
    if nodes != [] {
      var prefix := nodes[..|nodes| - 1];
      var last := nodes[|nodes| - 1];
      IdToIndexKeys(prefix);
      assert forall n :: n in nodes <==> n in prefix || n == last;
    }
  }

  lemma {:induction false} IdToIndexAt(nodes: seq<Node>)
    ensures forall id :: id in IdToIndex(nodes) ==> NodeId(nodes[IdToIndex(nodes)[id]]) == id
  {
    if nodes != [] {
      var prefix := nodes[..|nodes| - 1];
      var last := nodes[|nodes| - 1];
      IdToIndexAt(prefix);
      var r := IdToIndex(nodes);
      assert r == IdToIndex(prefix)[NodeId(last) := |nodes| - 1];
      forall id | id in r ensures NodeId(nodes[r[id]]) == id {
        if id != NodeId(last) {
          assert nodes[r[id]] == prefix[r[id]];
        }
      }
    }
  }

  lemma {:induction false} IdToIndexLatest(nodes: seq<Node>)
    ensures forall id, j :: id in IdToIndex(nodes) && IdToIndex(nodes)[id] < j < |nodes| ==> NodeId(nodes[j]) != id
  {
    if nodes != [] {
      var prefix := nodes[..|nodes| - 1];
      var last := nodes[|nodes| - 1];
      IdToIndexLatest(prefix);
      var r := IdToIndex(nodes);
      assert r == IdToIndex(prefix)[NodeId(last) := |nodes| - 1];
      forall id, j | id in r && r[id] < j < |nodes| ensures NodeId(nodes[j]) != id {
        if id != NodeId(last) && j < |nodes| - 1 {
          assert nodes[j] == prefix[j];
        }
      }
    }
  }

  /** The graph as index lists: an edge is kept only when both of its ends are node ids. */
  function EdgeLists(index: map<string, nat>, edges: seq<Neighbourhood.Edge>, size: nat): (r: seq<seq<nat>>)
    requires forall id :: id in index ==> index[id] < size
    ensures |r| == size
    ensures forall i, j :: 0 <= i < size && 0 <= j < |r[i]| ==> r[i][j] < size
  {
    if edges == [] then seq(size, i => [])
    else
      var before := EdgeLists(index, edges[..|edges| - 1], size);
      var e := edges[|edges| - 1];
      var src := Neighbourhood.Src(e);
      var dst := Neighbourhood.Dst(e);
      if src in index && dst in index then before[index[src] := before[index[src]] + [index[dst]]]
      else before
  }

  /** An edge list of a node grows only by the kept edges leaving it. */
  predicate Degrees(adjacency: seq<seq<nat>>, outdeg: seq<int>) {
    |outdeg| == |adjacency| && forall i :: 0 <= i < |adjacency| ==> outdeg[i] == |adjacency[i]|
  }

  /** The edge loop: `adjacency[src].append(dst)` and `outdeg[src] += 1` for every kept edge. */
  method BuildEdgeLists(index: map<string, nat>, edges: seq<Neighbourhood.Edge>, size: nat)
    returns (adjacency: seq<seq<nat>>, outdeg: seq<int>)
    requires forall id :: id in index ==> index[id] < size
    ensures adjacency == EdgeLists(index, edges, size)
    ensures Degrees(adjacency, outdeg)
  {
    adjacency := seq(size, i => []);
    outdeg := seq(size, i => 0);
    var k := 0;
    while k < |edges|
      invariant 0 <= k <= |edges|
      invariant adjacency == EdgeLists(index, edges[..k], size)
      invariant Degrees(adjacency, outdeg)
    {
      EdgeListsStep(index, edges, k, size);
      var src := Neighbourhood.Src(edges[k]);
      var dst := Neighbourhood.Dst(edges[k]);
      if src in index && dst in index {
        var s := index[src];
        adjacency := adjacency[s := adjacency[s] + [index[dst]]];
        outdeg := outdeg[s := outdeg[s] + 1];
      }
      k := k + 1;
    }
    assert edges[..k] == edges;
  }

  lemma EdgeListsStep(index: map<string, nat>, edges: seq<Neighbourhood.Edge>, k: nat, size: nat)
    requires forall id :: id in index ==> index[id] < size
    requires k < |edges|
    ensures var before := EdgeLists(index, edges[..k], size);
            var src := Neighbourhood.Src(edges[k]);
            var dst := Neighbourhood.Dst(edges[k]);
            EdgeLists(index, edges[..k + 1], size)
            == if src in index && dst in index then before[index[src] := before[index[src]] + [index[dst]]] else before
  {
    assert edges[..k + 1][..k] == edges[..k];
  }

  // ---------------------------------------------------------------------------
  // The seed vector

  /** `max(float(base_scores.get(id, 0.0)), 0.0)` for each node. */
  function Clamped(nodes: seq<Node>, base: map<string, real>): (r: seq<real>)
    ensures |r| == |nodes| && NonNegative(r)
  {
    seq(|nodes|, i requires 0 <= i < |nodes| =>
      var b := if NodeId(nodes[i]) in base then base[NodeId(nodes[i])] else 0.0;
      if b >= 0.0 then b else 0.0)
  }

  /** The seed: the clamped base scores divided by their total, or uniform when the total is 0. */
  function SeedVector(nodes: seq<Node>, base: map<string, real>): seq<real>
    requires |nodes| > 0
  {
    var clamped := Clamped(nodes, base);
    var total := Sum(clamped);
    if total == 0.0 then Constant(|nodes|, 1.0 / (|nodes| as real))
    else Scale(clamped, 1.0 / total)
  }

  /** The seed is a probability vector. */
  lemma SeedIsDistribution(nodes: seq<Node>, base: map<string, real>)
    requires |nodes| > 0
    ensures |SeedVector(nodes, base)| == |nodes|
    ensures NonNegative(SeedVector(nodes, base)) && Sum(SeedVector(nodes, base)) == 1.0
  {
    var clamped := Clamped(nodes, base);
    SumNonNegative(clamped);
    if Sum(clamped) == 0.0 {
      UniformDistribution(|nodes|);
    } else {
      ScaledDistribution(clamped);
    }
  }

  lemma UniformDistribution(n: nat)
    requires n > 0
    ensures var u := Constant(n, 1.0 / (n as real));
            |u| == n && NonNegative(u) && Sum(u) == 1.0
  {
    var x := n as real;
    SumConstant(n, 1.0 / x);
    DivideBack(x, 1.0);
    assert 1.0 / x > 0.0;
  }

  lemma ScaledDistribution(s: seq<real>)
    requires NonNegative(s) && Sum(s) > 0.0
    ensures var u := Scale(s, 1.0 / Sum(s));
            |u| == |s| && NonNegative(u) && Sum(u) == 1.0
  {
    var total := Sum(s);
    SumScale(s, 1.0 / total);
    DivideBack(total, 1.0);
    ScaleNonNegative(s, 1.0 / total);
  }

  lemma ScaleNonNegative(s: seq<real>, c: real)
    requires NonNegative(s) && c >= 0.0
    ensures NonNegative(Scale(s, c))
  {
    forall i | 0 <= i < |s| ensures Scale(s, c)[i] >= 0.0 {
      assert Scale(s, c)[i] == c * s[i];
    }
  }

  // ---------------------------------------------------------------------------
  // One iteration

  /** `v` with `c` added to every entry. */
  function AddAll(v: seq<real>, c: real): (r: seq<real>)
    ensures |r| == |v| && forall i :: 0 <= i < |v| ==> r[i] == v[i] + c
  {
    seq(|v|, i requires 0 <= i < |v| => v[i] + c)
  }

  /** Adding `c` everywhere adds `|v| * c` to the total. */
  lemma {:induction false} SumAddAll(v: seq<real>, c: real)
    ensures Sum(AddAll(v, c)) == Sum(v) + (|v| as real) * c
  {
    if v != [] {
      var n := |v| - 1;
      SumAddAll(v[..n], c);
      assert AddAll(v, c)[..n] == AddAll(v[..n], c);
      assert (n as real) * c + c == ((n + 1) as real) * c;
    }
  }

  /** `next_ranks[idx] += share` for every node. */
  method SpreadShare(next0: seq<real>, share: real) returns (next: seq<real>)
    ensures next == AddAll(next0, share)
    ensures Sum(next) == Sum(next0) + (|next0| as real) * share
  {
    next := next0;
    var idx := 0;
    while idx < |next|
      invariant 0 <= idx <= |next| == |next0|
      invariant SpreadSoFar(next0, next, idx, share)
    {
      SpreadStep(next0, next, idx, share);
      next := next[idx := next[idx] + share];
      idx := idx + 1;
    }
  }

  /** The state of `SpreadShare` after `idx` nodes. */
  ghost predicate SpreadSoFar(next0: seq<real>, next: seq<real>, idx: nat, share: real) {
    && idx <= |next| == |next0|
    && (forall i :: 0 <= i < idx ==> next[i] == next0[i] + share)
    && (forall i :: idx <= i < |next| ==> next[i] == next0[i])
    && Sum(next) == Sum(next0) + (idx as real) * share
  }

  lemma SpreadStep(next0: seq<real>, next: seq<real>, idx: nat, share: real)
    requires SpreadSoFar(next0, next, idx, share) && idx < |next|
    ensures SpreadSoFar(next0, next[idx := next[idx] + share], idx + 1, share)
  {
    SumUpdate(next, idx, share);
    assert (idx as real) * share + share == ((idx + 1) as real) * share;
  }

  lemma DivideBack(n: real, x: real)
    requires n != 0.0
    ensures n * (x / n) == x
  {
  }

  /** Every entry of every edge list indexes a vector of length `n`. */
  predicate Targets(adjacency: seq<seq<nat>>, n: nat) {
    forall i, j :: 0 <= i < |adjacency| && 0 <= j < |adjacency[i]| ==> adjacency[i][j] < n
  }

  /** `v` after `next_ranks[dst] += w` for each `dst` of `targets` in turn. */
  function Along(v: seq<real>, targets: seq<nat>, w: real): (r: seq<real>)
    requires forall j :: 0 <= j < |targets| ==> targets[j] < |v|
    ensures |r| == |v|
  {
    AlongTo(v, targets, w, |targets|)
  }

  /** `v` after the first `k` targets have each received `w`. */
  function AlongTo(v: seq<real>, targets: seq<nat>, w: real, k: nat): (r: seq<real>)
    requires k <= |targets|
    requires forall j :: 0 <= j < |targets| ==> targets[j] < |v|
    ensures |r| == |v|
  {
    if k == 0 then v
    else
      var u := AlongTo(v, targets, w, k - 1);
      var dst := targets[k - 1];
      u[dst := u[dst] + w]
  }

  /** What entry `i` receives from `targets`: one `w` per occurrence of `i`. */
  function Received(targets: seq<nat>, w: real, i: nat): real {
    ReceivedTo(targets, w, i, |targets|)
  }

  /** What entry `i` receives from the first `k` targets. */
  function ReceivedTo(targets: seq<nat>, w: real, i: nat, k: nat): real
    requires k <= |targets|
  {
    if k == 0 then 0.0
    else ReceivedTo(targets, w, i, k - 1) + (if targets[k - 1] == i then w else 0.0)
  }

  /** Each entry gains exactly what it receives. */
  lemma {:induction false} AlongAt(v: seq<real>, targets: seq<nat>, w: real, i: nat)
    requires forall j :: 0 <= j < |targets| ==> targets[j] < |v|
    requires i < |v|
    ensures Along(v, targets, w)[i] == v[i] + Received(targets, w, i)
  {
    AlongToAt(v, targets, w, i, |targets|);
  }

  lemma {:induction false} AlongToAt(v: seq<real>, targets: seq<nat>, w: real, i: nat, k: nat)
    requires k <= |targets|
    requires forall j :: 0 <= j < |targets| ==> targets[j] < |v|
    requires i < |v|
    ensures AlongTo(v, targets, w, k)[i] == v[i] + ReceivedTo(targets, w, i, k)
  {
    if k != 0 {
      AlongToAt(v, targets, w, i, k - 1);
    }
  }

  /** The total gains one `w` per target. */
  lemma {:induction false} AlongSum(v: seq<real>, targets: seq<nat>, w: real)
    requires forall j :: 0 <= j < |targets| ==> targets[j] < |v|
    ensures Sum(Along(v, targets, w)) == Sum(v) + (|targets| as real) * w
  {
    AlongToSum(v, targets, w, |targets|);
    RepeatIs(|targets|, w);
  }

  /** `w` added to itself `k` times. */
  function Repeat(k: nat, w: real): real {
    if k == 0 then 0.0 else Repeat(k - 1, w) + w
  }

  lemma {:induction false} RepeatIs(k: nat, w: real)
    ensures Repeat(k, w) == (k as real) * w
  {
    if k != 0 {
      RepeatIs(k - 1, w);
    }
  }

  lemma {:induction false} AlongToSum(v: seq<real>, targets: seq<nat>, w: real, k: nat)
    requires k <= |targets|
    requires forall j :: 0 <= j < |targets| ==> targets[j] < |v|
    ensures Sum(AlongTo(v, targets, w, k)) == Sum(v) + Repeat(k, w)
  {
    if k != 0 {
      var u := AlongTo(v, targets, w, k - 1);
      AlongToSum(v, targets, w, k - 1);
      SumUpdateOf(u, targets[k - 1], w, AlongTo(v, targets, w, k));
    }
  }

  lemma {:induction false} AlongNonNegative(v: seq<real>, targets: seq<nat>, w: real)
    requires forall j :: 0 <= j < |targets| ==> targets[j] < |v|
    requires w >= 0.0 && NonNegative(v)
    ensures NonNegative(Along(v, targets, w))
  {
    AlongToNonNegative(v, targets, w, |targets|);
  }

  lemma {:induction false} AlongToNonNegative(v: seq<real>, targets: seq<nat>, w: real, k: nat)
    requires k <= |targets|
    requires forall j :: 0 <= j < |targets| ==> targets[j] < |v|
    requires w >= 0.0 && NonNegative(v)
    ensures NonNegative(AlongTo(v, targets, w, k))
  {
    if k != 0 {
      AlongToNonNegative(v, targets, w, k - 1);
    }
  }

  /** `next_ranks[dst] += weight` for every edge out of `src`. */
  method PushAlong(next0: seq<real>, targets: seq<nat>, weight: real) returns (next: seq<real>)
    requires forall j :: 0 <= j < |targets| ==> targets[j] < |next0|
    ensures next == Along(next0, targets, weight)
  {
    next := next0;
    var j := 0;
    while j < |targets|
      invariant 0 <= j <= |targets|
      invariant next == AlongTo(next0, targets, weight, j)
    {
      var dst := targets[j];
      next := next[dst := next[dst] + weight];
      j := j + 1;
    }
  }

  /** `lam * ranks[src] / deg`, what `src` sends along each of its edges. */
  function Weight(ranks: seq<real>, outdeg: seq<int>, lam: real, src: nat): real
    requires src < |ranks| && src < |outdeg| && outdeg[src] != 0
  {
    lam * ranks[src] / (outdeg[src] as real)
  }

  /** `v` after the edge loop over the first `k` sources: each with out-edges sends its weight
      along every one of them. */
  function Pushed(v: seq<real>, ranks: seq<real>, adjacency: seq<seq<nat>>, outdeg: seq<int>, lam: real, k: nat)
    : (r: seq<real>)
    requires k <= |ranks| && k <= |adjacency| && k <= |outdeg| && Targets(adjacency, |v|)
    ensures |r| == |v|
  {
    if k == 0 then v
    else
      var u := Pushed(v, ranks, adjacency, outdeg, lam, k - 1);
      if outdeg[k - 1] == 0 then u else Along(u, adjacency[k - 1], Weight(ranks, outdeg, lam, k - 1))
  }

  /** What entry `i` receives from the first `k` sources: `lam * ranks[src] / outdeg[src]` for
      every edge from `src` into `i`. */
  function Inflow(ranks: seq<real>, adjacency: seq<seq<nat>>, outdeg: seq<int>, lam: real, k: nat, i: nat): real
    requires k <= |ranks| && k <= |adjacency| && k <= |outdeg|
  {
    if k == 0 then 0.0
    else Inflow(ranks, adjacency, outdeg, lam, k - 1, i)
         + (if outdeg[k - 1] == 0 then 0.0 else Received(adjacency[k - 1], Weight(ranks, outdeg, lam, k - 1), i))
  }

  lemma {:induction false} PushedAt(v: seq<real>, ranks: seq<real>, adjacency: seq<seq<nat>>, outdeg: seq<int>,
                                    lam: real, k: nat, i: nat)
    requires k <= |ranks| && k <= |adjacency| && k <= |outdeg| && Targets(adjacency, |v|)
    requires i < |v|
    ensures Pushed(v, ranks, adjacency, outdeg, lam, k)[i] == v[i] + Inflow(ranks, adjacency, outdeg, lam, k, i)
  {
    if k > 0 {
      PushedAt(v, ranks, adjacency, outdeg, lam, k - 1, i);
      if outdeg[k - 1] != 0 {
        AlongAt(Pushed(v, ranks, adjacency, outdeg, lam, k - 1), adjacency[k - 1], Weight(ranks, outdeg, lam, k - 1), i);
      }
    }
  }

  /** What the first `k` sources push in total: `lam * ranks[src]` for each with out-edges. */
  function PushedMass(ranks: seq<real>, outdeg: seq<int>, lam: real, k: nat): real
    requires k <= |ranks| && k <= |outdeg|
  {
    if k == 0 then 0.0
    else PushedMass(ranks, outdeg, lam, k - 1) + (if outdeg[k - 1] != 0 then lam * ranks[k - 1] else 0.0)
  }

  /** That is `lam` of the rank held by those sources. */
  lemma {:induction false} PushedMassIs(ranks: seq<real>, outdeg: seq<int>, lam: real, k: nat)
    requires k <= |ranks| && k <= |outdeg|
    ensures PushedMass(ranks, outdeg, lam, k) == lam * MassOf(ranks, outdeg, k, true)
  {
    if k > 0 {
      PushedMassIs(ranks, outdeg, lam, k - 1);
    }
  }

  /** The edge loop moves `lam` of the rank held by nodes with out-edges. */
  lemma {:induction false} PushedSum(v: seq<real>, ranks: seq<real>, adjacency: seq<seq<nat>>, outdeg: seq<int>, lam: real, k: nat)
    requires k <= |ranks| && Degrees(adjacency, outdeg) && k <= |adjacency| && Targets(adjacency, |v|)
    ensures Sum(Pushed(v, ranks, adjacency, outdeg, lam, k)) == Sum(v) + lam * MassOf(ranks, outdeg, k, true)
  {
    PushedTotal(v, ranks, adjacency, outdeg, lam, k);
    PushedMassIs(ranks, outdeg, lam, k);
  }

  lemma {:induction false} PushedTotal(v: seq<real>, ranks: seq<real>, adjacency: seq<seq<nat>>, outdeg: seq<int>,
                                       lam: real, k: nat)
    requires k <= |ranks| && Degrees(adjacency, outdeg) && k <= |adjacency| && Targets(adjacency, |v|)
    ensures Sum(Pushed(v, ranks, adjacency, outdeg, lam, k)) == Sum(v) + PushedMass(ranks, outdeg, lam, k)
  {
    if k > 0 {
      PushedTotal(v, ranks, adjacency, outdeg, lam, k - 1);
      var before := Pushed(v, ranks, adjacency, outdeg, lam, k - 1);
      if outdeg[k - 1] != 0 {
        var w := Weight(ranks, outdeg, lam, k - 1);
        AlongSum(before, adjacency[k - 1], w);
        WeightTotal(ranks, adjacency, outdeg, lam, k - 1);
        AddStep(Sum(Along(before, adjacency[k - 1], w)), Sum(before), Sum(v),
                PushedMass(ranks, outdeg, lam, k - 1), lam * ranks[k - 1], PushedMass(ranks, outdeg, lam, k));
      }
    }
  }

  lemma AddStep(total: real, before: real, base: real, acc0: real, gain: real, acc: real)
    requires before == base + acc0 && total == before + gain && acc == acc0 + gain
    ensures total == base + acc
  {
  }

  /** A source sends `lam` of its rank in total: its weight along each of its `outdeg` edges. */
  lemma {:induction false} WeightTotal(ranks: seq<real>, adjacency: seq<seq<nat>>, outdeg: seq<int>, lam: real, src: nat)
    requires src < |ranks| && Degrees(adjacency, outdeg) && src < |adjacency| && outdeg[src] != 0
    ensures (|adjacency[src]| as real) * Weight(ranks, outdeg, lam, src) == lam * ranks[src]
  {
    DivideBack(outdeg[src] as real, lam * ranks[src]);
  }

  lemma {:induction false} PushedNonNegative(v: seq<real>, ranks: seq<real>, adjacency: seq<seq<nat>>, outdeg: seq<int>,
                                             lam: real, k: nat)
    requires k <= |ranks| && Degrees(adjacency, outdeg) && k <= |adjacency| && Targets(adjacency, |v|)
    requires lam >= 0.0 && NonNegative(ranks) && NonNegative(v)
    ensures NonNegative(Pushed(v, ranks, adjacency, outdeg, lam, k))
  {
    if k > 0 {
      PushedNonNegative(v, ranks, adjacency, outdeg, lam, k - 1);
      if outdeg[k - 1] != 0 {
        assert lam * ranks[k - 1] >= 0.0;
        AlongNonNegative(Pushed(v, ranks, adjacency, outdeg, lam, k - 1), adjacency[k - 1], Weight(ranks, outdeg, lam, k - 1));
      }
    }
  }

  lemma {:induction false} PushedNoEdges(v: seq<real>, ranks: seq<real>, adjacency: seq<seq<nat>>, outdeg: seq<int>,
                                         lam: real, k: nat)
    requires k <= |ranks| && k <= |adjacency| && k <= |outdeg| && Targets(adjacency, |v|)
    requires NoOutEdges(outdeg)
    ensures Pushed(v, ranks, adjacency, outdeg, lam, k) == v
  {
    if k > 0 {
      PushedNoEdges(v, ranks, adjacency, outdeg, lam, k - 1);
    }
  }

  /** The edge loop of one iteration: each node with out-edges sends `lam * rank / deg` along each. */
  method PushEdges(next0: seq<real>, ranks: seq<real>, adjacency: seq<seq<nat>>, outdeg: seq<int>, lam: real)
    returns (next: seq<real>)
    requires |ranks| == |next0| == |adjacency| && Degrees(adjacency, outdeg) && Targets(adjacency, |next0|)
    ensures next == Pushed(next0, ranks, adjacency, outdeg, lam, |outdeg|)
  {
    next := next0;
    var src := 0;
    while src < |outdeg|
      invariant 0 <= src <= |outdeg|
      invariant next == Pushed(next0, ranks, adjacency, outdeg, lam, src)
    {
      var deg := outdeg[src];
      if deg != 0 {
        var weight := lam * ranks[src] / (deg as real);
        assert weight == Weight(ranks, outdeg, lam, src);
        next := PushAlong(next, adjacency[src], weight);
      }
      src := src + 1;
    }
  }

  /** Uniform ranks over `n` nodes. */
  predicate Uniform(s: seq<real>, n: nat) {
    n > 0 && forall i :: 0 <= i < |s| ==> s[i] == 1.0 / (n as real)
  }

  predicate NoOutEdges(outdeg: seq<int>) {
    forall i :: 0 <= i < |outdeg| ==> outdeg[i] == 0
  }

  /** What each node receives from the dangling mass: `lam * dangling / N`, or nothing when the
      dangling mass is 0. */
  function Share(ranks: seq<real>, outdeg: seq<int>, lam: real): real
    requires 0 < |ranks| <= |outdeg|
  {
    var dangling := MassOf(ranks, outdeg, |ranks|, false);
    if dangling != 0.0 then lam * dangling / (|ranks| as real) else 0.0
  }

  /** The first half of an iteration: `(1 - lam) * seed`, plus the dangling mass spread evenly. */
  function Teleported(ranks: seq<real>, seed: seq<real>, outdeg: seq<int>, lam: real): (r: seq<real>)
    requires |ranks| == |seed| == |outdeg| > 0
    ensures |r| == |seed|
    ensures forall i :: 0 <= i < |r| ==> r[i] == (1.0 - lam) * seed[i] + Share(ranks, outdeg, lam)
  {
    AddAll(Scale(seed, 1.0 - lam), Share(ranks, outdeg, lam))
  }

  /** The teleported vector carries `1 - lam` of the seed and `lam` of the dangling mass. */
  lemma {:induction false} TeleportedSum(ranks: seq<real>, seed: seq<real>, outdeg: seq<int>, lam: real)
    requires |ranks| == |seed| == |outdeg| > 0
    ensures Sum(Teleported(ranks, seed, outdeg, lam))
            == (1.0 - lam) * Sum(seed) + lam * MassOf(ranks, outdeg, |ranks|, false)
  {
    var share := Share(ranks, outdeg, lam);
    SumScaledPlus(seed, 1.0 - lam, share);
    ShareTotal(ranks, outdeg, lam, |seed|, share);
  }

  lemma {:induction false} TeleportedSumOne(ranks: seq<real>, seed: seq<real>, outdeg: seq<int>, lam: real, t: seq<real>, dangling: real)
    requires |ranks| == |seed| == |outdeg| > 0 && Sum(seed) == 1.0
    requires t == Teleported(ranks, seed, outdeg, lam) && dangling == MassOf(ranks, outdeg, |ranks|, false)
    ensures Sum(t) == (1.0 - lam) + lam * dangling
  {
    TeleportedSum(ranks, seed, outdeg, lam);
  }

  /** Scaling by `c` and then adding `share` everywhere. */
  lemma {:induction false} SumScaledPlus(s: seq<real>, c: real, share: real)
    ensures Sum(AddAll(Scale(s, c), share)) == c * Sum(s) + (|s| as real) * share
  {
    var scaled := Scale(s, c);
    SumScale(s, c);
    SumAddAll(scaled, share);
  }

  /** The share, given to each of the `N` nodes, adds up to `lam` of the dangling mass. */
  lemma {:induction false} ShareTotal(ranks: seq<real>, outdeg: seq<int>, lam: real, n: nat, share: real)
    requires 0 < |ranks| <= |outdeg| && n == |ranks| && share == Share(ranks, outdeg, lam)
    ensures (n as real) * share == lam * MassOf(ranks, outdeg, |ranks|, false)
  {
    var dangling := MassOf(ranks, outdeg, |ranks|, false);
    if dangling != 0.0 {
      DivideBack(n as real, lam * dangling);
    }
  }

  /** The teleport loop: `next_ranks = [(1 - lam) * seed[idx] ...]`, then `+= share` for every
      node when the dangling mass is not 0. */
  method Teleport(ranks: seq<real>, seed: seq<real>, outdeg: seq<int>, lam: real) returns (next: seq<real>)
    requires |ranks| == |seed| == |outdeg| > 0
    ensures next == Teleported(ranks, seed, outdeg, lam)
  {
    var size := |ranks|;
    next := Scale(seed, 1.0 - lam);
    var dangling := MassOf(ranks, outdeg, size, false);
    if dangling != 0.0 {
      var share := lam * dangling / (size as real);
      assert share == Share(ranks, outdeg, lam);
      next := SpreadShare(next, share);
    } else {
      assert Share(ranks, outdeg, lam) == 0.0;
      assert next == AddAll(next, 0.0);
    }
  }

  lemma TeleportNonNegative(ranks: seq<real>, seed: seq<real>, outdeg: seq<int>, lam: real, next: seq<real>)
    requires |ranks| == |seed| == |outdeg| == |next| > 0
    requires forall i :: 0 <= i < |next| ==> next[i] == (1.0 - lam) * seed[i] + Share(ranks, outdeg, lam)
    ensures 0.0 <= lam <= 1.0 && NonNegative(ranks) && NonNegative(seed) ==> NonNegative(next)
  {
    if 0.0 <= lam <= 1.0 && NonNegative(ranks) && NonNegative(seed) {
      TeleportNonNegativeCase(ranks, seed, outdeg, lam, next);
    }
  }

  lemma TeleportNonNegativeCase(ranks: seq<real>, seed: seq<real>, outdeg: seq<int>, lam: real, next: seq<real>)
    requires |ranks| == |seed| == |outdeg| == |next| > 0
    requires forall i :: 0 <= i < |next| ==> next[i] == (1.0 - lam) * seed[i] + Share(ranks, outdeg, lam)
    requires 0.0 <= lam <= 1.0 && NonNegative(ranks) && NonNegative(seed)
    ensures NonNegative(next)
  {
    MassNonNegative(ranks, outdeg, |ranks|, false);
    var dangling := MassOf(ranks, outdeg, |ranks|, false);
    assert lam * dangling >= 0.0;
    assert Share(ranks, outdeg, lam) >= 0.0;
    forall i | 0 <= i < |next| ensures next[i] >= 0.0 {
      assert (1.0 - lam) * seed[i] >= 0.0;
    }
  }

  lemma TeleportUniform(ranks: seq<real>, seed: seq<real>, outdeg: seq<int>, lam: real, next: seq<real>)
    requires |ranks| == |seed| == |outdeg| == |next| > 0
    requires forall i :: 0 <= i < |next| ==> next[i] == (1.0 - lam) * seed[i] + Share(ranks, outdeg, lam)
    requires Sum(ranks) == 1.0
    ensures NoOutEdges(outdeg) && Uniform(seed, |seed|) ==> Uniform(next, |next|)
  {
    if NoOutEdges(outdeg) && Uniform(seed, |seed|) {
      TeleportUniformCase(ranks, seed, outdeg, lam, next);
    }
  }

  lemma TeleportUniformCase(ranks: seq<real>, seed: seq<real>, outdeg: seq<int>, lam: real, next: seq<real>)
    requires |ranks| == |seed| == |outdeg| == |next| > 0
    requires forall i :: 0 <= i < |next| ==> next[i] == (1.0 - lam) * seed[i] + Share(ranks, outdeg, lam)
    requires NoOutEdges(outdeg) && Sum(ranks) == 1.0 && Uniform(seed, |seed|)
    ensures Uniform(next, |next|)
  {
    var size := |ranks|;
    NoLinkedMass(ranks, outdeg, size);
    MassSplit(ranks, outdeg, size);
    assert ranks[..size] == ranks;
    var share := Share(ranks, outdeg, lam);
    assert share == lam * 1.0 / (size as real);
    forall i | 0 <= i < size ensures next[i] == 1.0 / (size as real) {
      UniformStep(size as real, lam, seed[i], (1.0 - lam) * seed[i], share, next[i]);
    }
  }

  /** One power-iteration round, entry by entry: `(1 - lam) * seed[i]`, plus the dangling share,
      plus `lam * ranks[src] / outdeg[src]` for every edge from `src` into `i`. */
  function Step(ranks: seq<real>, seed: seq<real>, adjacency: seq<seq<nat>>, outdeg: seq<int>, lam: real)
    : (r: seq<real>)
    requires |ranks| == |seed| == |adjacency| > 0 && Degrees(adjacency, outdeg)
    ensures |r| == |ranks|
  {
    seq(|ranks|, i requires 0 <= i < |ranks| =>
      (1.0 - lam) * seed[i] + Share(ranks, outdeg, lam) + Inflow(ranks, adjacency, outdeg, lam, |ranks|, i))
  }

  /** The round is the teleport followed by the edge loop. */
  lemma {:induction false} StepSplit(ranks: seq<real>, seed: seq<real>, adjacency: seq<seq<nat>>, outdeg: seq<int>, lam: real)
    requires |ranks| == |seed| == |adjacency| > 0 && Degrees(adjacency, outdeg) && Targets(adjacency, |ranks|)
    ensures Step(ranks, seed, adjacency, outdeg, lam)
            == Pushed(Teleported(ranks, seed, outdeg, lam), ranks, adjacency, outdeg, lam, |ranks|)
  {
    var t := Teleported(ranks, seed, outdeg, lam);
    forall i | 0 <= i < |ranks|
      ensures Step(ranks, seed, adjacency, outdeg, lam)[i] == Pushed(t, ranks, adjacency, outdeg, lam, |ranks|)[i]
    {
      PushedAt(t, ranks, adjacency, outdeg, lam, |ranks|, i);
    }
  }

  /** A round keeps the total rank at 1 for any `lam`: `1 - lam` of it teleports, and `lam` of it
      is either spread from the dangling nodes or pushed along edges. */
  lemma {:induction false} StepMass(ranks: seq<real>, seed: seq<real>, adjacency: seq<seq<nat>>, outdeg: seq<int>, lam: real)
    requires |ranks| == |seed| == |adjacency| > 0 && Degrees(adjacency, outdeg) && Targets(adjacency, |ranks|)
    requires Sum(ranks) == 1.0 && Sum(seed) == 1.0
    ensures Sum(Step(ranks, seed, adjacency, outdeg, lam)) == 1.0
  {
    StepSplit(ranks, seed, adjacency, outdeg, lam);
    RoundMass(ranks, seed, adjacency, outdeg, lam);
  }

  lemma {:induction false} RoundMass(ranks: seq<real>, seed: seq<real>, adjacency: seq<seq<nat>>, outdeg: seq<int>, lam: real)
    requires |ranks| == |seed| == |adjacency| > 0 && Degrees(adjacency, outdeg) && Targets(adjacency, |ranks|)
    requires Sum(ranks) == 1.0 && Sum(seed) == 1.0
    ensures Sum(Pushed(Teleported(ranks, seed, outdeg, lam), ranks, adjacency, outdeg, lam, |ranks|)) == 1.0
  {
    var t := Teleported(ranks, seed, outdeg, lam);
    var p := Pushed(t, ranks, adjacency, outdeg, lam, |ranks|);
    var dangling := MassOf(ranks, outdeg, |ranks|, false);
    var linked := MassOf(ranks, outdeg, |ranks|, true);
    TeleportedSumOne(ranks, seed, outdeg, lam, t, dangling);
    PushedSumOf(t, ranks, adjacency, outdeg, lam, p, linked);
    MassTotal(ranks, outdeg);
    Conserve(lam, dangling, linked, Sum(t), Sum(p));
  }

  lemma {:induction false} PushedSumOf(t: seq<real>, ranks: seq<real>, adjacency: seq<seq<nat>>, outdeg: seq<int>,
                                       lam: real, p: seq<real>, linked: real)
    requires |ranks| == |adjacency| && Degrees(adjacency, outdeg) && Targets(adjacency, |t|)
    requires p == Pushed(t, ranks, adjacency, outdeg, lam, |ranks|) && linked == MassOf(ranks, outdeg, |ranks|, true)
    ensures Sum(p) == Sum(t) + lam * linked
  {
    PushedSum(t, ranks, adjacency, outdeg, lam, |ranks|);
  }

  /** The dangling and the linked mass make up all the rank. */
  lemma {:induction false} MassTotal(ranks: seq<real>, outdeg: seq<int>)
    requires |ranks| <= |outdeg| && Sum(ranks) == 1.0
    ensures MassOf(ranks, outdeg, |ranks|, false) + MassOf(ranks, outdeg, |ranks|, true) == 1.0
  {
    MassSplit(ranks, outdeg, |ranks|);
    assert ranks[..|ranks|] == ranks;
  }

  /** With `lam` in [0, 1], non-negative ranks and seed give non-negative ranks. */
  lemma {:induction false} StepNonNegative(ranks: seq<real>, seed: seq<real>, adjacency: seq<seq<nat>>, outdeg: seq<int>, lam: real)
    requires |ranks| == |seed| == |adjacency| > 0 && Degrees(adjacency, outdeg) && Targets(adjacency, |ranks|)
    requires 0.0 <= lam <= 1.0 && NonNegative(ranks) && NonNegative(seed)
    ensures NonNegative(Step(ranks, seed, adjacency, outdeg, lam))
  {
    var t := Teleported(ranks, seed, outdeg, lam);
    StepSplit(ranks, seed, adjacency, outdeg, lam);
    TeleportNonNegative(ranks, seed, outdeg, lam, t);
    PushedNonNegative(t, ranks, adjacency, outdeg, lam, |ranks|);
  }

  /** On a graph without edges, uniform ranks and a uniform seed stay uniform. */
  lemma {:induction false} StepUniform(ranks: seq<real>, seed: seq<real>, adjacency: seq<seq<nat>>, outdeg: seq<int>, lam: real)
    requires |ranks| == |seed| == |adjacency| > 0 && Degrees(adjacency, outdeg) && Targets(adjacency, |ranks|)
    requires Sum(ranks) == 1.0 && NoOutEdges(outdeg) && Uniform(seed, |seed|)
    ensures Uniform(Step(ranks, seed, adjacency, outdeg, lam), |ranks|)
  {
    var t := Teleported(ranks, seed, outdeg, lam);
    StepSplit(ranks, seed, adjacency, outdeg, lam);
    TeleportUniform(ranks, seed, outdeg, lam, t);
    PushedNoEdges(t, ranks, adjacency, outdeg, lam, |ranks|);
  }

  /** One power-iteration round, computed by the teleport and edge loops. */
  method Iterate(ranks: seq<real>, seed: seq<real>, adjacency: seq<seq<nat>>, outdeg: seq<int>, lam: real)
    returns (next: seq<real>)
    requires |ranks| == |seed| == |adjacency| > 0 && Degrees(adjacency, outdeg) && Targets(adjacency, |ranks|)
    ensures next == Step(ranks, seed, adjacency, outdeg, lam)
  {
    var teleported := Teleport(ranks, seed, outdeg, lam);
    next := PushEdges(teleported, ranks, adjacency, outdeg, lam);
    StepSplit(ranks, seed, adjacency, outdeg, lam);
  }

  /** The rank a node ends with when every node held `1 / n`, as seed and as rank, and had no out-edges. */
  lemma UniformStep(n: real, lam: real, seeded: real, afterSeed: real, share: real, next: real)
    requires n > 0.0 && seeded == 1.0 / n && afterSeed == (1.0 - lam) * seeded
    requires share == lam * 1.0 / n && next == afterSeed + share
    ensures next == 1.0 / n
  {
  }

  /** The teleport mass, the spread dangling mass and the pushed linked mass add back up to 1. */
  lemma Conserve(lam: real, dangling: real, linked: real, teleported: real, pushed: real)
    requires dangling + linked == 1.0
    requires teleported == (1.0 - lam) + lam * dangling && pushed == teleported + lam * linked
    ensures pushed == 1.0
  {
  }

  // ---------------------------------------------------------------------------
  // The whole computation

  /** The ranks after `n` rounds from the uniform start. */
  function Power(seed: seq<real>, adjacency: seq<seq<nat>>, outdeg: seq<int>, lam: real, n: nat): (r: seq<real>)
    requires |seed| == |adjacency| > 0 && Degrees(adjacency, outdeg)
    ensures |r| == |seed|
  {
    if n == 0 then Constant(|seed|, 1.0 / (|seed| as real))
    else Step(Power(seed, adjacency, outdeg, lam, n - 1), seed, adjacency, outdeg, lam)
  }

  /** After any number of rounds the ranks total 1, are non-negative when `lam` is in [0, 1] and
      the seed is, and stay uniform on a graph without edges with a uniform seed. */
  lemma {:induction false} PowerInvariant(seed: seq<real>, adjacency: seq<seq<nat>>, outdeg: seq<int>, lam: real, n: nat)
    requires |seed| == |adjacency| > 0 && Degrees(adjacency, outdeg) && Targets(adjacency, |seed|)
    requires Sum(seed) == 1.0
    ensures Sum(Power(seed, adjacency, outdeg, lam, n)) == 1.0
    ensures 0.0 <= lam <= 1.0 && NonNegative(seed) ==> NonNegative(Power(seed, adjacency, outdeg, lam, n))
    ensures NoOutEdges(outdeg) && Uniform(seed, |seed|) ==> Uniform(Power(seed, adjacency, outdeg, lam, n), |seed|)
  {
    var size := |seed|;
    if n == 0 {
      UniformDistribution(size);
    } else {
      var ranks := Power(seed, adjacency, outdeg, lam, n - 1);
      PowerInvariant(seed, adjacency, outdeg, lam, n - 1);
      StepMass(ranks, seed, adjacency, outdeg, lam);
      if 0.0 <= lam <= 1.0 && NonNegative(seed) {
        StepNonNegative(ranks, seed, adjacency, outdeg, lam);
      }
      if NoOutEdges(outdeg) && Uniform(seed, |seed|) {
        StepUniform(ranks, seed, adjacency, outdeg, lam);
      }
    }
  }

  /** `deltas[j]` is the L1 change made by round `j + 1`. */
  ghost predicate Recorded(seed: seq<real>, adjacency: seq<seq<nat>>, outdeg: seq<int>, lam: real, deltas: seq<real>)
    requires |seed| == |adjacency| > 0 && Degrees(adjacency, outdeg)
  {
    forall j :: 0 <= j < |deltas| ==>
      deltas[j] == L1(Power(seed, adjacency, outdeg, lam, j + 1), Power(seed, adjacency, outdeg, lam, j))
  }

  lemma RecordedAppend(seed: seq<real>, adjacency: seq<seq<nat>>, outdeg: seq<int>, lam: real, deltas: seq<real>, delta: real)
    requires |seed| == |adjacency| > 0 && Degrees(adjacency, outdeg)
    requires Recorded(seed, adjacency, outdeg, lam, deltas)
    requires delta == L1(Power(seed, adjacency, outdeg, lam, |deltas| + 1), Power(seed, adjacency, outdeg, lam, |deltas|))
    ensures Recorded(seed, adjacency, outdeg, lam, deltas + [delta])
  {
  }

  /** The number of rounds the loop runs, counting from round `k`: the first round whose L1
      change is below `tol`, or round `rounds` when none is. */
  function Rounds(seed: seq<real>, adjacency: seq<seq<nat>>, outdeg: seq<int>, lam: real, rounds: nat, tol: real, k: nat): (r: nat)
    requires |seed| == |adjacency| > 0 && Degrees(adjacency, outdeg)
    requires 1 <= k <= rounds
    ensures k <= r <= rounds
    decreases rounds - k
  {
    if k == rounds || L1(Power(seed, adjacency, outdeg, lam, k), Power(seed, adjacency, outdeg, lam, k - 1)) < tol then k
    else Rounds(seed, adjacency, outdeg, lam, rounds, tol, k + 1)
  }

  /** The recorded changes of a run that kept going while the change was at least `tol`, and
      stopped early only below it, determine its round count. */
  lemma {:induction false} RoundsOfRecorded(seed: seq<real>, adjacency: seq<seq<nat>>, outdeg: seq<int>, lam: real,
                                            rounds: nat, tol: real, deltas: seq<real>, k: nat)
    requires |seed| == |adjacency| > 0 && Degrees(adjacency, outdeg)
    requires Recorded(seed, adjacency, outdeg, lam, deltas)
    requires 1 <= k <= |deltas| <= rounds
    requires forall j :: 0 <= j < |deltas| - 1 ==> deltas[j] >= tol
    requires |deltas| < rounds ==> deltas[|deltas| - 1] < tol
    ensures Rounds(seed, adjacency, outdeg, lam, rounds, tol, k) == |deltas|
    decreases |deltas| - k
  {
    assert deltas[k - 1] == L1(Power(seed, adjacency, outdeg, lam, k), Power(seed, adjacency, outdeg, lam, k - 1));
    if k < |deltas| {
      RoundsOfRecorded(seed, adjacency, outdeg, lam, rounds, tol, deltas, k + 1);
    }
  }

  /** The iteration loop: at least one and at most `max(iters, 1)` rounds, stopping after the
      first round whose L1 change is below `tol`. `deltas` records each round's change, and the
      result is the ranks after that many rounds. */
  method PowerIteration(seed: seq<real>, adjacency: seq<seq<nat>>, outdeg: seq<int>, lam: real, iters: int, tol: real)
    returns (ranks: seq<real>, ghost deltas: seq<real>)
    requires |seed| == |adjacency| > 0 && Degrees(adjacency, outdeg) && Targets(adjacency, |seed|)
    ensures ranks == Power(seed, adjacency, outdeg, lam, |deltas|)
    ensures Recorded(seed, adjacency, outdeg, lam, deltas)
    ensures 1 <= |deltas| <= (if iters > 1 then iters else 1)
    ensures forall j :: 0 <= j < |deltas| - 1 ==> deltas[j] >= tol
    ensures |deltas| < (if iters > 1 then iters else 1) ==> deltas[|deltas| - 1] < tol
  {
    var size := |seed|;
    ranks := Constant(size, 1.0 / (size as real));
    var rounds := if iters > 1 then iters else 1;
    deltas := [];
    var round := 0;
    while round < rounds
      invariant 0 <= round <= rounds && |deltas| == round
      invariant ranks == Power(seed, adjacency, outdeg, lam, round)
      invariant Recorded(seed, adjacency, outdeg, lam, deltas)
      invariant forall j :: 0 <= j < |deltas| ==> deltas[j] >= tol
    {
      var next := Iterate(ranks, seed, adjacency, outdeg, lam);
      var delta := L1(next, ranks);
      RecordedAppend(seed, adjacency, outdeg, lam, deltas, delta);
      deltas := deltas + [delta];
      ranks := next;
      if delta < tol {
        return;
      }
      round := round + 1;
    }
  }

  /** The out-degree of every node: the length of its edge list. */
  function OutDegrees(adjacency: seq<seq<nat>>): (r: seq<int>)
    ensures Degrees(adjacency, r)
  {
    seq(|adjacency|, i requires 0 <= i < |adjacency| => |adjacency[i]|)
  }

  lemma DegreesUnique(adjacency: seq<seq<nat>>, outdeg: seq<int>)
    requires Degrees(adjacency, outdeg)
    ensures outdeg == OutDegrees(adjacency)
  {
  }

  /** The scores `personalize_scores` returns: the ranks after the rounds the loop runs, from the
      seed of the clamped base scores over the edge lists of the known ids, divided by their
      total (by 1 when the total is 0) and keyed by id. An empty graph gives `{}`. */
  function PprScores(nodes: seq<Node>, edges: seq<Neighbourhood.Edge>, base: map<string, real>,
                     lam: real, iters: int, tol: real): (r: map<string, real>)
    ensures r.Keys == IdToIndex(nodes).Keys
  {
    if |nodes| == 0 then map[]
    else
      var index := IdToIndex(nodes);
      var adjacency := EdgeLists(index, edges, |nodes|);
      var outdeg := OutDegrees(adjacency);
      var seed := SeedVector(nodes, base);
      SeedIsDistribution(nodes, base);
      var ranks := Power(seed, adjacency, outdeg, lam, Rounds(seed, adjacency, outdeg, lam, if iters > 1 then iters else 1, tol, 1));
      var total := Sum(ranks);
      Keyed(index, ranks, if total != 0.0 then total else 1.0)
  }

  /** Every node id gets a score; the scores are non-negative for `lam` in [0, 1]; with distinct
      ids they sum to 1; with no usable edge and no positive base score every node gets `1 / N`. */
  lemma PprScoresFacts(nodes: seq<Node>, edges: seq<Neighbourhood.Edge>, base: map<string, real>,
                       lam: real, iters: int, tol: real)
    ensures var scores := PprScores(nodes, edges, base, lam, iters, tol);
            && scores.Keys == Neighbourhood.NodeIds(nodes)
            && (0.0 <= lam <= 1.0 ==> forall id :: id in scores ==> scores[id] >= 0.0)
            && (|nodes| > 0 && Distinct(nodes) ==> Sum(seq(|nodes|, i requires 0 <= i < |nodes| => scores[NodeId(nodes[i])])) == 1.0)
            && ((forall e :: e in edges ==> Neighbourhood.Src(e) !in scores || Neighbourhood.Dst(e) !in scores)
                && (forall i :: 0 <= i < |nodes| ==> Clamped(nodes, base)[i] == 0.0)
                ==> forall id :: id in scores ==> scores[id] == 1.0 / (|nodes| as real))
  {
    IdToIndexFacts(nodes);
    if |nodes| > 0 {
      var index := IdToIndex(nodes);
      var adjacency := EdgeLists(index, edges, |nodes|);
      var outdeg := OutDegrees(adjacency);
      var seed := SeedVector(nodes, base);
      SeedIsDistribution(nodes, base);
      var rounds := Rounds(seed, adjacency, outdeg, lam, if iters > 1 then iters else 1, tol, 1);
      var ranks := Power(seed, adjacency, outdeg, lam, rounds);
      PowerInvariant(seed, adjacency, outdeg, lam, rounds);
      assert PprScores(nodes, edges, base, lam, iters, tol) == Keyed(index, ranks, 1.0);
      KeyedSum(nodes, index, ranks);
      KeyedNonNegative(index, ranks, lam);
      NoEdgesUniform(nodes, edges, base, index, adjacency, outdeg);
    }
  }

  /** `personalize_scores`: the id index, the edge loop, the seed and the power iteration
      compute `PprScores`. */
  method PersonalizeScores(nodes: seq<Node>, edges: seq<Neighbourhood.Edge>, base: map<string, real>,
                           lam: real, iters: int, tol: real)
    returns (scores: map<string, real>)
    requires forall n :: n in nodes ==> HasId(n)
    ensures scores == PprScores(nodes, edges, base, lam, iters, tol)
    ensures |nodes| == 0 ==> scores == map[]
    ensures scores.Keys == Neighbourhood.NodeIds(nodes)
    ensures 0.0 <= lam <= 1.0 ==> forall id :: id in scores ==> scores[id] >= 0.0
    ensures |nodes| > 0 && Distinct(nodes) ==> Sum(seq(|nodes|, i requires 0 <= i < |nodes| => scores[NodeId(nodes[i])])) == 1.0
    ensures (forall e :: e in edges ==> Neighbourhood.Src(e) !in scores || Neighbourhood.Dst(e) !in scores)
            && (forall i :: 0 <= i < |nodes| ==> Clamped(nodes, base)[i] == 0.0)
            ==> forall id :: id in scores ==> scores[id] == 1.0 / (|nodes| as real)
  {
    PprScoresFacts(nodes, edges, base, lam, iters, tol);
    var size := |nodes|;
    if size == 0 {
      return map[];
    }
    var index := IdToIndex(nodes);
    var adjacency, outdeg := BuildEdgeLists(index, edges, size);
    DegreesUnique(adjacency, outdeg);
    var seed := SeedVector(nodes, base);
    SeedIsDistribution(nodes, base);
    ghost var deltas;
    var ranks;
    ranks, deltas := PowerIteration(seed, adjacency, outdeg, lam, iters, tol);
    RoundsOfRecorded(seed, adjacency, outdeg, lam, if iters > 1 then iters else 1, tol, deltas, 1);
    var total := Sum(ranks);
    var normaliser := if total != 0.0 then total else 1.0;
    scores := Keyed(index, ranks, normaliser);
  }

  /** `{id: ranks[idx] / normaliser}` over the index. */
  function Keyed(index: map<string, nat>, ranks: seq<real>, normaliser: real): (r: map<string, real>)
    requires forall id :: id in index ==> index[id] < |ranks|
    requires normaliser != 0.0
    ensures r.Keys == index.Keys
  {
    map id | id in index :: ranks[index[id]] / normaliser
  }

  /** With distinct ids, reading the keyed scores back in node order gives the rank vector. */
  lemma KeyedSum(nodes: seq<Node>, index: map<string, nat>, ranks: seq<real>)
    requires index == IdToIndex(nodes) && |ranks| == |nodes|
    ensures Distinct(nodes) ==>
      var scores := Keyed(index, ranks, 1.0);
      (forall i :: 0 <= i < |nodes| ==> NodeId(nodes[i]) in scores)
      && seq(|nodes|, i requires 0 <= i < |nodes| => scores[NodeId(nodes[i])]) == ranks
  {
    if Distinct(nodes) {
      DistinctIndex(nodes, index);
    }
  }

  lemma KeyedNonNegative(index: map<string, nat>, ranks: seq<real>, lam: real)
    requires forall id :: id in index ==> index[id] < |ranks|
    requires 0.0 <= lam <= 1.0 ==> NonNegative(ranks)
    ensures 0.0 <= lam <= 1.0 ==> forall id :: id in index ==> Keyed(index, ranks, 1.0)[id] >= 0.0
  {
  }

  /** No kept edge and no positive base score: the seed is uniform and no node has out-edges. */
  lemma NoEdgesUniform(nodes: seq<Node>, edges: seq<Neighbourhood.Edge>, base: map<string, real>,
                       index: map<string, nat>, adjacency: seq<seq<nat>>, outdeg: seq<int>)
    requires |nodes| > 0 && index == IdToIndex(nodes)
    requires adjacency == EdgeLists(index, edges, |nodes|) && Degrees(adjacency, outdeg)
    ensures (forall e :: e in edges ==> Neighbourhood.Src(e) !in index || Neighbourhood.Dst(e) !in index)
            && (forall i :: 0 <= i < |nodes| ==> Clamped(nodes, base)[i] == 0.0)
            ==> NoOutEdges(outdeg) && Uniform(SeedVector(nodes, base), |nodes|)
  {
    if (forall e :: e in edges ==> Neighbourhood.Src(e) !in index || Neighbourhood.Dst(e) !in index)
       && (forall i :: 0 <= i < |nodes| ==> Clamped(nodes, base)[i] == 0.0) {
      NoEdgeLists(index, edges, |nodes|);
      ZeroSum(Clamped(nodes, base));
    }
  }

  /** Nodes with pairwise different ids. */
  predicate Distinct(nodes: seq<Node>) {
    forall i, j :: 0 <= i < j < |nodes| ==> NodeId(nodes[i]) != NodeId(nodes[j])
  }

  lemma DistinctIndex(nodes: seq<Node>, index: map<string, nat>)
    requires Distinct(nodes) && index == IdToIndex(nodes)
    ensures forall i :: 0 <= i < |nodes| ==> NodeId(nodes[i]) in index && index[NodeId(nodes[i])] == i
  {
    IdToIndexFacts(nodes);
    forall i | 0 <= i < |nodes| ensures NodeId(nodes[i]) in index && index[NodeId(nodes[i])] == i {
      assert nodes[i] in nodes;
      var k := index[NodeId(nodes[i])];
      assert NodeId(nodes[k]) == NodeId(nodes[i]);
    }
  }

  lemma {:induction false} ZeroSum(s: seq<real>)
    requires forall i :: 0 <= i < |s| ==> s[i] == 0.0
    ensures Sum(s) == 0.0
  {
    if s != [] {
      ZeroSum(s[..|s| - 1]);
    }
  }

  lemma {:induction false} NoEdgeLists(index: map<string, nat>, edges: seq<Neighbourhood.Edge>, size: nat)
    requires forall id :: id in index ==> index[id] < size
    requires forall e :: e in edges ==> Neighbourhood.Src(e) !in index || Neighbourhood.Dst(e) !in index
    ensures forall i :: 0 <= i < size ==> EdgeLists(index, edges, size)[i] == []
  {
    if edges != [] {
      assert forall e :: e in edges[..|edges| - 1] ==> e in edges;
      NoEdgeLists(index, edges[..|edges| - 1], size);
      assert edges[|edges| - 1] in edges;
    }
  }
}

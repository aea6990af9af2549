/** `_candidate_neighbourhood`: the nodes within `hops` undirected steps of the seed nodes. */
module Neighbourhood {
  import opened Json
  import opened ContextSignals

  /** A graph edge as decoded from the graph file. */
  type Edge = seq<(string, Json)>

  function Src(e: Edge): string { TextField(e, "src") }
  function Dst(e: Edge): string { TextField(e, "dst") }

  function NodeIds(nodes: seq<Node>): set<string> {
    set n | n in nodes :: NodeId(n)
  }

  /** Some edge joins `a` and `b`, in either direction. */
  predicate Linked(edges: seq<Edge>, a: string, b: string) {
    exists e :: e in edges && ((Src(e) == a && Dst(e) == b) || (Src(e) == b && Dst(e) == a))
  }

  /** The undirected adjacency over known node ids: every id is a key, and `b` is a neighbour of `a`
      exactly when both are known and some edge joins them; edges with an unknown end are ignored. */
  function Adjacency(nodes: seq<Node>, edges: seq<Edge>): map<string, set<string>> {
    AdjacencyOver(NodeIds(nodes), edges)
  }

  function AdjacencyOver(ids: set<string>, edges: seq<Edge>): (r: map<string, set<string>>)
    ensures r.Keys == ids
  {
    map a | a in ids :: set b | b in ids && Linked(edges, a, b)
  }

  /** `adjacency[src].add(dst)` then `adjacency[dst].add(src)`. */
  function AddLink(adj: map<string, set<string>>, src: string, dst: string): (r: map<string, set<string>>)
    requires src in adj && dst in adj
    ensures r.Keys == adj.Keys
    ensures forall a :: a in r ==>
              r[a] == adj[a] + (if a == src then {dst} else {}) + (if a == dst then {src} else {})
  {
    var once := adj[src := adj[src] + {dst}];
    once[dst := once[dst] + {src}]
  }

  /** One more edge adds its two ends to each other's neighbours when both are known. */
  lemma AdjacencyStep(ids: set<string>, edges: seq<Edge>, e: Edge)
    ensures var before := AdjacencyOver(ids, edges);
            AdjacencyOver(ids, edges + [e])
            == if Src(e) in ids && Dst(e) in ids
               then AddLink(before, Src(e), Dst(e))
               else before
  {
    var before := AdjacencyOver(ids, edges);
    var after := AdjacencyOver(ids, edges + [e]);
    var expected := if Src(e) in ids && Dst(e) in ids
                    then AddLink(before, Src(e), Dst(e))
                    else before;
    assert after.Keys == expected.Keys;
    forall a | a in ids ensures after[a] == expected[a] {
      NeighboursStep(ids, edges, e, a);
    }
  }

  lemma AdjacencyStepAt(ids: set<string>, edges: seq<Edge>, k: int)
    requires 0 <= k < |edges|
    ensures var before := AdjacencyOver(ids, edges[..k]);
            var e := edges[k];
            AdjacencyOver(ids, edges[..k + 1])
            == if Src(e) in ids && Dst(e) in ids then AddLink(before, Src(e), Dst(e)) else before
  {
    assert edges[..k + 1] == edges[..k] + [edges[k]];
    AdjacencyStep(ids, edges[..k], edges[k]);
  }

  /** The neighbours of one known id after one more edge. */
  lemma NeighboursStep(ids: set<string>, edges: seq<Edge>, e: Edge, a: string)
    requires a in ids
    ensures AdjacencyOver(ids, edges + [e])[a]
            == AdjacencyOver(ids, edges)[a]
               + (if a == Src(e) && Dst(e) in ids then {Dst(e)} else {})
               + (if a == Dst(e) && Src(e) in ids then {Src(e)} else {})
  {
    LinkedStep(edges, e);
  }

  lemma LinkedStep(edges: seq<Edge>, e: Edge)
    ensures forall a, b :: Linked(edges + [e], a, b) <==>
              Linked(edges, a, b) || (Src(e) == a && Dst(e) == b) || (Src(e) == b && Dst(e) == a)
  {
    forall a, b ensures Linked(edges + [e], a, b) <==>
                        Linked(edges, a, b) || (Src(e) == a && Dst(e) == b) || (Src(e) == b && Dst(e) == a)
    {
      if Linked(edges + [e], a, b) {
        var e' :| e' in edges + [e] && ((Src(e') == a && Dst(e') == b) || (Src(e') == b && Dst(e') == a));
        if e' != e { assert e' in edges; }
      }
      if Linked(edges, a, b) {
        var e' :| e' in edges && ((Src(e') == a && Dst(e') == b) || (Src(e') == b && Dst(e') == a));
        assert e' in edges + [e];
      }
      if (Src(e) == a && Dst(e) == b) || (Src(e) == b && Dst(e) == a) {
        assert e in edges + [e];
      }
    }
  }

  /** The adjacency-building loop: one empty set per node, then each edge with two known ends
      is added in both directions. */
  method BuildAdjacency(nodes: seq<Node>, edges: seq<Edge>) returns (adj: map<string, set<string>>)
    ensures adj == Adjacency(nodes, edges)
  {
    adj := EmptyAdjacency(nodes);
    adj := LinkEdges(adj, NodeIds(nodes), edges);
  }

  /** The first loop: one empty neighbour set per node id. */
  method EmptyAdjacency(nodes: seq<Node>) returns (adj: map<string, set<string>>)
    ensures adj == AdjacencyOver(NodeIds(nodes), [])
  {
    adj := map[];
    var i := 0;
    while i < |nodes|
      invariant 0 <= i <= |nodes|
      invariant adj.Keys == NodeIds(nodes[..i])
      invariant forall a :: a in adj ==> adj[a] == {}
    {
      adj := adj[NodeId(nodes[i]) := {}];
      assert nodes[..i + 1] == nodes[..i] + [nodes[i]];
      i := i + 1;
    }
    assert nodes[..i] == nodes;
    forall a | a in adj ensures AdjacencyOver(NodeIds(nodes), [])[a] == {} {
      assert forall b :: !Linked([], a, b);
    }
  }

  /** The second loop: each edge with two known ends is added in both directions. */
  method LinkEdges(adj0: map<string, set<string>>, ghost ids: set<string>, edges: seq<Edge>)
    returns (adj: map<string, set<string>>)
    requires adj0 == AdjacencyOver(ids, [])
    ensures adj == AdjacencyOver(ids, edges)
  {
    adj := adj0;
    var k := 0;
    while k < |edges|
      invariant 0 <= k <= |edges|
      invariant adj == AdjacencyOver(ids, edges[..k])
    {
      var e := edges[k];
      var src := Src(e);
      var dst := Dst(e);
      ghost var before := adj;
      AdjacencyStepAt(ids, edges, k);
      if src in adj && dst in adj {
        adj := adj[src := adj[src] + {dst}];
        adj := adj[dst := adj[dst] + {src}];
        assert adj == AddLink(before, src, dst);
        assert adj == AdjacencyOver(ids, edges[..k + 1]);
      } else {
        assert adj == AdjacencyOver(ids, edges[..k + 1]);
      }
      k := k + 1;
    }
    assert edges[..k] == edges;
  }

  /** `v` is at most `k` steps from a seed along the adjacency. */
  ghost predicate Reach(adj: map<string, set<string>>, seeds: set<string>, v: string, k: nat)
    decreases k
  {
    v in seeds || (k > 0 && exists u :: u in adj && v in adj[u] && Reach(adj, seeds, u, k - 1))
  }

  lemma {:induction false} ReachMonotone(adj: map<string, set<string>>, seeds: set<string>, v: string, j: nat, k: nat)
    requires j <= k && Reach(adj, seeds, v, j)
    ensures Reach(adj, seeds, v, k)
    decreases j
  {
    if v !in seeds {
      var u :| u in adj && v in adj[u] && Reach(adj, seeds, u, j - 1);
      ReachMonotone(adj, seeds, u, j - 1, k - 1);
    }
  }

  /** The nodes named in a queue. */
  function QueueNodes(queue: seq<(string, nat)>): set<string> {
    set p | p in queue :: p.0
  }

  lemma QueueNodesAppend(queue: seq<(string, nat)>, p: (string, nat))
    ensures QueueNodes(queue + [p]) == QueueNodes(queue) + {p.0}
  {
    assert forall q :: q in queue + [p] <==> q in queue || q == p;
  }

  /** The seeds as the initial queue, each at depth 0 (the order of a set is not specified). */
  method SeedQueue(seeds: set<string>) returns (queue: seq<(string, nat)>)
    ensures |queue| == |seeds| && QueueNodes(queue) == seeds
    ensures forall i :: 0 <= i < |queue| ==> queue[i].0 in seeds && queue[i].1 == 0
    ensures forall i, j :: 0 <= i < j < |queue| ==> queue[i].0 != queue[j].0
  {
    queue := [];
    var rest := seeds;
    while rest != {}
      invariant SeedsQueued(queue, seeds, rest)
      decreases |rest|
    {
      var s :| s in rest;
      SeedQueued(queue, seeds, rest, s);
      queue := queue + [(s, 0)];
      rest := rest - {s};
    }
  }

  /** The loop state of `SeedQueue`: the seeds not in `rest`, each once, at depth 0. */
  ghost predicate SeedsQueued(queue: seq<(string, nat)>, seeds: set<string>, rest: set<string>) {
    && rest <= seeds
    && |queue| + |rest| == |seeds|
    && QueueNodes(queue) == seeds - rest
    && (forall i :: 0 <= i < |queue| ==> queue[i].0 in seeds - rest && queue[i].1 == 0)
    && (forall i, j :: 0 <= i < j < |queue| ==> queue[i].0 != queue[j].0)
  }

  lemma SeedQueued(queue: seq<(string, nat)>, seeds: set<string>, rest: set<string>, s: string)
    requires SeedsQueued(queue, seeds, rest) && s in rest
    ensures SeedsQueued(queue + [(s, 0)], seeds, rest - {s})
  {
    QueueNodesAppend(queue, (s, 0));
    var q := queue + [(s, 0)];
    forall i | 0 <= i < |queue| ensures queue[i].0 != s {
      assert queue[i] in queue;
    }
    forall i | 0 <= i < |q| ensures q[i].0 in seeds - (rest - {s}) && q[i].1 == 0 {
      if i < |queue| {
        assert q[i] == queue[i];
      }
    }
    forall i, j | 0 <= i < j < |q| ensures q[i].0 != q[j].0 {
      assert q[i] == queue[i];
      if j < |queue| {
        assert q[j] == queue[j];
      }
    }
  }

  /** The inner loop over `adjacency.get(current, set())`: every unvisited neighbour is marked
      visited and queued at `depth + 1`, in some order. */
  method ExpandNeighbours(neighbours: set<string>, depth: nat, visited0: set<string>, queue0: seq<(string, nat)>)
    returns (visited: set<string>, queue: seq<(string, nat)>)
    ensures visited == visited0 + neighbours
    ensures |queue| >= |queue0| && queue[..|queue0|] == queue0
    ensures forall i :: |queue0| <= i < |queue| ==> queue[i].0 in neighbours - visited0 && queue[i].1 == depth + 1
    ensures QueueNodes(queue[|queue0|..]) == neighbours - visited0
  {
    visited := visited0;
    queue := queue0;
    var rest := neighbours;
    while rest != {}
      invariant rest <= neighbours
      invariant visited == visited0 + (neighbours - rest)
      invariant |queue| >= |queue0| && queue[..|queue0|] == queue0
      invariant forall i :: |queue0| <= i < |queue| ==> queue[i].0 in neighbours - visited0 && queue[i].1 == depth + 1
      invariant QueueNodes(queue[|queue0|..]) == (neighbours - rest) - visited0
    {
      var neighbour :| neighbour in rest;
      rest := rest - {neighbour};
      if neighbour in visited {
        continue;
      }
      var added := queue[|queue0|..];
      QueueNodesAppend(added, (neighbour, depth + 1));
      visited := visited + {neighbour};
      queue := queue + [(neighbour, depth + 1)];
      assert queue[|queue0|..] == added + [(neighbour, depth + 1)];
    }
  }

  /** Neighbours of a node within `d` steps are within `d + 1` steps. */
  lemma ReachStep(adj: map<string, set<string>>, seeds: set<string>, u: string, d: nat)
    requires u in adj && Reach(adj, seeds, u, d)
    ensures forall v :: v in adj[u] ==> Reach(adj, seeds, v, d + 1)
  {
  }

  /** Neighbours are themselves known nodes. */
  lemma AdjacencyClosed(nodes: seq<Node>, edges: seq<Edge>)
    ensures forall a :: a in Adjacency(nodes, edges) ==> Adjacency(nodes, edges)[a] <= Adjacency(nodes, edges).Keys
  {
  }

  lemma EmptyQueueNodes(queue: seq<(string, nat)>)
    ensures QueueNodes(queue) == {} <==> queue == []
  {
    if queue != [] {
      assert queue[0] in queue;
      assert queue[0].0 in QueueNodes(queue);
    }
  }

  /** The new queue entries are the newly visited nodes: if none was added, the queue is unchanged. */
  lemma NothingAdded(queue0: seq<(string, nat)>, queue: seq<(string, nat)>)
    requires |queue| >= |queue0| && queue[..|queue0|] == queue0
    requires QueueNodes(queue[|queue0|..]) == {}
    ensures queue == queue0
  {
    EmptyQueueNodes(queue[|queue0|..]);
    assert queue == queue[..|queue0|] + queue[|queue0|..];
  }

  /** Entries queued one level deeper than a node within reach are within reach. */
  lemma QueueStillReaches(adj: map<string, set<string>>, seeds: set<string>, queue0: seq<(string, nat)>,
                          queue: seq<(string, nat)>, neighbours: set<string>, depth: nat)
    requires forall i :: 0 <= i < |queue0| ==> Reach(adj, seeds, queue0[i].0, queue0[i].1)
    requires |queue| >= |queue0| && queue[..|queue0|] == queue0
    requires forall i :: |queue0| <= i < |queue| ==> queue[i].0 in neighbours && queue[i].1 == depth + 1
    requires forall v :: v in neighbours ==> Reach(adj, seeds, v, depth + 1)
    ensures forall i :: 0 <= i < |queue| ==> Reach(adj, seeds, queue[i].0, queue[i].1)
  {
    forall i | 0 <= i < |queue| ensures Reach(adj, seeds, queue[i].0, queue[i].1) {
      if i < |queue0| {
        assert queue[i] == queue0[i];
      }
    }
  }

  /** Visiting more of the universe leaves less of it unvisited. */
  lemma SmallerRemainder(universe: set<string>, before: set<string>, after: set<string>, v: string)
    requires before <= after <= universe
    requires v in after && v !in before
    ensures |universe - after| < |universe - before|
  {
    var rest := universe - after;
    var b := universe - before;
    assert b == rest + (b - rest) && rest !! (b - rest);
    assert v in b - rest;
  }

  /** The nodes within `hops` steps of the seeds: the seeds and every known node reachable in at
      most `hops` steps. */
  ghost function Ball(adj: map<string, set<string>>, seeds: set<string>, hops: nat): set<string> {
    seeds + set v | v in adj.Keys && Reach(adj, seeds, v, hops)
  }

  /** `_candidate_neighbourhood`: the adjacency is built, then walked breadth-first from the seeds.
      The result is exactly the seeds and the known nodes within `hops` undirected steps. */
  method CandidateNeighbourhood(nodes: seq<Node>, edges: seq<Edge>, seeds: set<string>, hops: int)
    returns (visited: set<string>)
    ensures seeds <= visited
    ensures visited <= seeds + NodeIds(nodes)
    ensures forall v :: v in visited && v !in seeds ==>
              hops >= 1 && Reach(Adjacency(nodes, edges), seeds, v, hops)
    ensures hops >= 0 ==> visited == Ball(Adjacency(nodes, edges), seeds, hops)
    ensures hops < 0 ==> visited == seeds
  {
    var adj := BuildAdjacency(nodes, edges);
    AdjacencyClosed(nodes, edges);
    visited := Walk(adj, seeds, hops);
  }

  /** The breadth-first walk: a popped entry at depth `hops` or more is not expanded; otherwise
      its unvisited neighbours are marked and queued one level deeper. Every node returned is a
      seed, or a node of the graph within `hops` steps of one; every such node is returned. */
  method Walk(adj: map<string, set<string>>, seeds: set<string>, hops: int) returns (visited: set<string>)
    requires forall a :: a in adj ==> adj[a] <= adj.Keys
    ensures seeds <= visited <= seeds + adj.Keys
    ensures forall v :: v in visited && v !in seeds ==> hops >= 1 && Reach(adj, seeds, v, hops)
    ensures forall v :: hops >= 0 && Reach(adj, seeds, v, hops) ==> v in visited
    ensures hops >= 0 ==> visited == Ball(adj, seeds, hops)
    ensures hops < 0 ==> visited == seeds
  {
    visited := seeds;
    var queue := SeedQueue(seeds);
    ghost var universe := seeds + adj.Keys;
    ghost var level: nat := 0;
    WalkStart(adj, seeds, hops, queue);
    while queue != []
      invariant WalkState(adj, seeds, hops, level, visited, queue)
      decreases |universe - visited|, |queue|
    {
      level, visited, queue := WalkStep(adj, seeds, hops, level, visited, queue);
    }
    WalkDone(adj, seeds, hops, level, visited);
  }

  lemma WalkStart(adj: map<string, set<string>>, seeds: set<string>, hops: int, queue: seq<(string, nat)>)
    requires forall a :: a in adj ==> adj[a] <= adj.Keys
    requires QueueNodes(queue) == seeds
    requires forall i :: 0 <= i < |queue| ==> queue[i].0 in seeds && queue[i].1 == 0
    ensures WalkState(adj, seeds, hops, 0, seeds, queue)
  {
    LayeredStart(adj, seeds, hops, queue);
  }

  /** The drained walk has visited exactly the ball. */
  lemma WalkDone(adj: map<string, set<string>>, seeds: set<string>, hops: int, level: nat, visited: set<string>)
    requires WalkState(adj, seeds, hops, level, visited, [])
    ensures seeds <= visited <= seeds + adj.Keys
    ensures forall v :: v in visited && v !in seeds ==> hops >= 1 && Reach(adj, seeds, v, hops)
    ensures forall v :: hops >= 0 && Reach(adj, seeds, v, hops) ==> v in visited
    ensures hops >= 0 ==> visited == Ball(adj, seeds, hops)
    ensures hops < 0 ==> visited == seeds
  {
    LayeredDone(adj, seeds, hops, level, visited);
    if hops >= 0 {
      BallExact(adj, seeds, hops, visited);
    }
  }

  lemma AdvanceState(adj: map<string, set<string>>, seeds: set<string>, hops: int, level: nat,
                     visited: set<string>, queue: seq<(string, nat)>)
    requires WalkState(adj, seeds, hops, level, visited, queue)
    requires queue != [] && queue[0].1 != level
    ensures WalkState(adj, seeds, hops, level + 1, visited, queue)
    ensures queue[0].1 == level + 1
  {
    LayeredAdvance(adj, seeds, hops, level, visited, queue);
  }

  lemma SkipState(adj: map<string, set<string>>, seeds: set<string>, hops: int, level: nat,
                  visited: set<string>, queue: seq<(string, nat)>)
    requires WalkState(adj, seeds, hops, level, visited, queue)
    requires queue != [] && queue[0].1 == level && level >= hops
    ensures WalkState(adj, seeds, hops, level, visited, queue[1..])
  {
    LayeredSkip(adj, seeds, hops, level, visited, queue);
  }

  /** A set lying between the seeds and the known nodes that holds exactly the reachable
      non-seeds is the ball. */
  lemma BallExact(adj: map<string, set<string>>, seeds: set<string>, hops: nat, visited: set<string>)
    requires seeds <= visited <= seeds + adj.Keys
    requires forall v :: v in visited && v !in seeds ==> Reach(adj, seeds, v, hops)
    requires forall v :: Reach(adj, seeds, v, hops) ==> v in visited
    ensures visited == Ball(adj, seeds, hops)
  {
  }

  /** The state of the walk between two pops: the seeds are visited, every other visited node
      and every queued entry is within reach, and the queue is layered. */
  ghost predicate WalkState(adj: map<string, set<string>>, seeds: set<string>, hops: int, level: nat,
                            visited: set<string>, queue: seq<(string, nat)>) {
    && (forall a :: a in adj ==> adj[a] <= adj.Keys)
    && seeds <= visited <= seeds + adj.Keys
    && (forall i :: 0 <= i < |queue| ==> Reach(adj, seeds, queue[i].0, queue[i].1))
    && (forall v :: v in visited && v !in seeds ==> hops >= 1 && Reach(adj, seeds, v, hops))
    && Layered(adj, seeds, hops, level, visited, queue)
  }

  /** One turn of the walk: the head entry is popped, and expanded when it is less than `hops`
      deep. Either some node is newly visited, or the visits stay and the queue shortens. */
  method WalkStep(adj: map<string, set<string>>, ghost seeds: set<string>, hops: int, ghost level0: nat,
                  visited0: set<string>, queue0: seq<(string, nat)>)
    returns (ghost level: nat, visited: set<string>, queue: seq<(string, nat)>)
    requires WalkState(adj, seeds, hops, level0, visited0, queue0) && queue0 != []
    ensures WalkState(adj, seeds, hops, level, visited, queue)
    ensures visited0 <= visited <= seeds + adj.Keys
    ensures var universe := seeds + adj.Keys;
            |universe - visited| < |universe - visited0|
            || (visited == visited0 && |queue| < |queue0|)
  {
    level := level0;
    if queue0[0].1 != level {
      AdvanceState(adj, seeds, hops, level, visited0, queue0);
      level := level + 1;
    }
    if queue0[0].1 >= hops {
      SkipState(adj, seeds, hops, level, visited0, queue0);
      visited, queue := visited0, queue0[1..];
    } else {
      visited, queue := ExpandHead(adj, seeds, hops, level, visited0, queue0);
      if visited != visited0 {
        WalkProgress(seeds + adj.Keys, visited0, visited);
      }
    }
  }

  /** Pops the head entry, at depth `level` below `hops`, and expands it: either some node is
      newly visited, or nothing changes but the queue is one shorter. */
  method ExpandHead(adj: map<string, set<string>>, ghost seeds: set<string>, hops: int, ghost level: nat,
                    visited0: set<string>, queue0: seq<(string, nat)>)
    returns (visited: set<string>, queue: seq<(string, nat)>)
    requires WalkState(adj, seeds, hops, level, visited0, queue0)
    requires queue0 != [] && queue0[0].1 == level && level < hops
    ensures WalkState(adj, seeds, hops, level, visited, queue)
    ensures visited0 <= visited
    ensures visited == visited0 ==> |queue| < |queue0|
  {
    var current := queue0[0].0;
    var depth := queue0[0].1;
    queue := queue0[1..];
    var neighbours := if current in adj then adj[current] else {};
    if current in adj {
      ReachStep(adj, seeds, current, depth);
    }
    ghost var queueBefore := queue;
    visited, queue := ExpandNeighbours(neighbours, depth, visited0, queue);
    LayeredExpand(adj, seeds, hops, level, visited0, queue0, visited, queue);
    forall v | v in neighbours ensures Reach(adj, seeds, v, hops) {
      ReachMonotone(adj, seeds, v, depth + 1, hops);
    }
    QueueStillReaches(adj, seeds, queueBefore, queue, neighbours, depth);
    if visited == visited0 {
      NothingAdded(queueBefore, queue);
    }
  }

  /** Visiting more of a finite universe, or a shorter queue with the same visits, is progress. */
  lemma WalkProgress(universe: set<string>, before: set<string>, after: set<string>)
    requires before <= after <= universe
    requires after != before
    ensures |universe - after| < |universe - before|
  {
    var v :| v in after && v !in before;
    SmallerRemainder(universe, before, after, v);
  }

  /** `v` is a neighbour of a queued entry at depth `level`, so it is visited when that entry is
      expanded. */
  ghost predicate Pending(adj: map<string, set<string>>, queue: seq<(string, nat)>, level: nat, v: string) {
    exists i :: 0 <= i < |queue| && queue[i].1 == level && queue[i].0 in adj && v in adj[queue[i].0]
  }

  /** The breadth-first layering of the walk at `level`, the depth of the entry at the head of the
      queue: the queue holds depths `level` and then `level + 1`; every node within `level` steps
      is visited; every node one step further is visited or the neighbour of a queued entry at
      `level`; and every visited node is still queued or has all its neighbours visited. */
  ghost predicate Layered(adj: map<string, set<string>>, seeds: set<string>, hops: int, level: nat,
                          visited: set<string>, queue: seq<(string, nat)>) {
    && seeds <= visited
    && (forall i :: 0 <= i < |queue| ==> level <= queue[i].1 <= level + 1)
    && (forall i, j :: 0 <= i < j < |queue| ==> queue[i].1 <= queue[j].1)
    && (forall v, k: nat :: k <= level && k <= hops && Reach(adj, seeds, v, k) ==> v in visited)
    && (level < hops ==> forall v :: Reach(adj, seeds, v, level + 1) ==> v in visited || Pending(adj, queue, level, v))
    && (level < hops ==> forall u :: u in visited && u in adj ==> adj[u] <= visited || u in QueueNodes(queue))
  }

  lemma LayeredStart(adj: map<string, set<string>>, seeds: set<string>, hops: int, queue: seq<(string, nat)>)
    requires QueueNodes(queue) == seeds
    requires forall i :: 0 <= i < |queue| ==> queue[i].1 == 0
    ensures Layered(adj, seeds, hops, 0, seeds, queue)
  {
    if 0 < hops {
      forall v | Reach(adj, seeds, v, 1) && v !in seeds ensures Pending(adj, queue, 0, v) {
        var u :| u in adj && v in adj[u] && Reach(adj, seeds, u, 0);
        var i :| 0 <= i < |queue| && queue[i].0 == u;
      }
    }
  }

  /** Once the head of the queue is one level deeper, every entry is, and the layering moves down. */
  lemma LayeredAdvance(adj: map<string, set<string>>, seeds: set<string>, hops: int, level: nat,
                       visited: set<string>, queue: seq<(string, nat)>)
    requires Layered(adj, seeds, hops, level, visited, queue)
    requires queue != [] && queue[0].1 != level
    ensures Layered(adj, seeds, hops, level + 1, visited, queue)
  {
    assert forall i :: 0 <= i < |queue| ==> queue[i].1 == level + 1 by {
      forall i | 0 <= i < |queue| ensures queue[i].1 == level + 1 {
        if i > 0 {
          assert queue[0].1 <= queue[i].1;
        }
      }
    }
    assert forall v :: !Pending(adj, queue, level, v);
    if level + 1 < hops {
      forall v | Reach(adj, seeds, v, level + 2) && v !in visited
        ensures Pending(adj, queue, level + 1, v)
      {
        var u :| u in adj && v in adj[u] && Reach(adj, seeds, u, level + 1);
        assert u in visited;
        var i :| 0 <= i < |queue| && queue[i].0 == u;
        assert queue[i].1 == level + 1;
      }
    }
  }

  /** An entry too deep to expand is dropped without disturbing the layering. */
  lemma LayeredSkip(adj: map<string, set<string>>, seeds: set<string>, hops: int, level: nat,
                    visited: set<string>, queue: seq<(string, nat)>)
    requires Layered(adj, seeds, hops, level, visited, queue)
    requires queue != [] && queue[0].1 == level && level >= hops
    ensures Layered(adj, seeds, hops, level, visited, queue[1..])
  {
    var rest := queue[1..];
    forall i, j | 0 <= i < j < |rest| ensures rest[i].1 <= rest[j].1 {
      assert rest[i] == queue[i + 1] && rest[j] == queue[j + 1];
    }
  }

  /** Expanding the head entry visits its neighbours and queues the new ones at `level + 1`. */
  lemma LayeredExpand(adj: map<string, set<string>>, seeds: set<string>, hops: int, level: nat,
                      visited0: set<string>, queue0: seq<(string, nat)>,
                      visited: set<string>, queue: seq<(string, nat)>)
    requires Layered(adj, seeds, hops, level, visited0, queue0)
    requires queue0 != [] && queue0[0].1 == level && level < hops
    requires visited == visited0 + (if queue0[0].0 in adj then adj[queue0[0].0] else {})
    requires |queue| >= |queue0| - 1 && queue[..|queue0| - 1] == queue0[1..]
    requires forall i :: |queue0| - 1 <= i < |queue| ==> queue[i].1 == level + 1
    requires QueueNodes(queue[|queue0| - 1..]) == visited - visited0
    ensures Layered(adj, seeds, hops, level, visited, queue)
  {
    var n := |queue0| - 1;
    var current := queue0[0].0;
    forall i | 0 <= i < n ensures queue[i] == queue0[i + 1] {
      assert queue[..n][i] == queue0[1..][i];
    }
    forall i | 0 <= i < |queue| ensures level <= queue[i].1 <= level + 1 {
      if i < n {
        assert queue[i] == queue0[i + 1];
      }
    }
    forall i, j | 0 <= i < j < |queue| ensures queue[i].1 <= queue[j].1 {
      if j < n {
        assert queue[i] == queue0[i + 1] && queue[j] == queue0[j + 1];
      } else if i < n {
        assert queue[i] == queue0[i + 1];
      }
    }
    forall v | Reach(adj, seeds, v, level + 1) && v !in visited ensures Pending(adj, queue, level, v) {
      var i :| 0 <= i < |queue0| && queue0[i].1 == level && queue0[i].0 in adj && v in adj[queue0[i].0];
      assert i != 0;
      assert queue[i - 1] == queue0[i];
    }
    forall u | u in visited && u in adj && !(adj[u] <= visited) ensures u in QueueNodes(queue) {
      if u in visited0 {
        var p :| p in queue0 && p.0 == u;
        var i :| 0 <= i < |queue0| && queue0[i] == p;
        assert i != 0;
        assert queue[i - 1] == queue0[i];
        assert queue[i - 1] in queue;
      } else {
        assert u in QueueNodes(queue[n..]);
        var p :| p in queue[n..] && p.0 == u;
        assert p in queue;
      }
    }
  }

  /** With the queue drained, every node within `hops` steps has been visited. */
  lemma LayeredDone(adj: map<string, set<string>>, seeds: set<string>, hops: int, level: nat, visited: set<string>)
    requires Layered(adj, seeds, hops, level, visited, [])
    ensures forall v :: hops >= 0 && Reach(adj, seeds, v, hops) ==> v in visited
  {
    if level < hops {
      forall v | Reach(adj, seeds, v, hops) ensures v in visited {
        ReachClosed(adj, seeds, visited, v, hops);
      }
    }
  }

  /** A visited set holding the seeds and closed under neighbours holds everything reachable. */
  lemma {:induction false} ReachClosed(adj: map<string, set<string>>, seeds: set<string>, visited: set<string>,
                                       v: string, k: nat)
    requires seeds <= visited
    requires forall u :: u in visited && u in adj ==> adj[u] <= visited
    requires Reach(adj, seeds, v, k)
    ensures v in visited
    decreases k
  {
    if v !in seeds {
      var u :| u in adj && v in adj[u] && Reach(adj, seeds, u, k - 1);
      ReachClosed(adj, seeds, visited, u, k - 1);
    }
  }
}

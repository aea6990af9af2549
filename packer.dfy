/** The greedy, budgeted, diversity-penalised selection loop of `generate_pack` and the
    pack metrics computed from its result. */
module Packer {
  import opened Wrappers
  import opened Json
  import opened ContextSignals

  /** One chosen section: its id, its token count, and the signals explaining its choice
      (`why`, with the ranking score added as `ppr`). The fixed `filters` list is not stored. */
  datatype Section = Section(id: string, tok: int, why: Signals, ppr: real)

  /** What the loop reads but never changes. */
  datatype Env = Env(
    nodes: seq<Node>,
    scores: map<string, real>,
    signals: map<string, Signals>,
    ppr: map<string, real>,
    budget: int,
    muFile: real,
    muRole: real)

  /** The loop's variables: `selections`, `token_in`, `diversity_penalty`, `file_counts`, `role_counts`. */
  datatype PackState = PackState(
    selections: seq<Section>,
    tokenIn: int,
    penalty: real,
    fileCounts: map<string, int>,
    roleCounts: map<string, int>)

  const Start := PackState([], 0, 0.0, map[], map[])

  /** Every node has an id, and every id has its signals (`signals[node_id]` must not fail). */
  predicate EnvOk(env: Env) {
    forall n :: n in env.nodes ==> HasId(n) && NodeId(n) in env.signals
  }

  function Lookup(m: map<string, real>, k: string): real { if k in m then m[k] else 0.0 }
  function Count(m: map<string, int>, k: string): int { if k in m then m[k] else 0 }
  function Max(a: real, b: real): real { if a >= b then a else b }

  /** `next(item for item in nodes if str(item.get("id")) == node_id)`. */
  function FindNode(nodes: seq<Node>, id: string): (r: Option<Node>)
    ensures r.Some? ==> r.value in nodes && NodeId(r.value) == id
    ensures r.None? <==> forall n :: n in nodes ==> NodeId(n) != id
  {
    if nodes == [] then None
    else if NodeId(nodes[0]) == id then Some(nodes[0])
    else FindNode(nodes[1..], id)
  }

  /** The multiplier `max(1 - (mu_file * file_ratio + mu_role * role_ratio), 0)`. */
  function PenaltyFactor(env: Env, st: PackState, path: string, role: string): real {
    var k := |st.selections| as real;
    var fileRatio := (Count(st.fileCounts, path) as real) / (k + 1.0);
    var roleRatio := (Count(st.roleCounts, role) as real) / (k + 1.0);
    Max(1.0 - (env.muFile * fileRatio + env.muRole * roleRatio), 0.0)
  }

  /** One turn of the loop over `scored_candidates`, in the order the source takes its steps:
      a missing node or a budget overflow skips (`continue`); otherwise the penalty is charged,
      and the candidate is accepted when its adjusted score is positive.
      `Continue(st)` means the loop goes on with `st`; `Stop(st)` is the `break`. */
  datatype Turn = Continue(st: PackState) | Stop(st: PackState)

  /** The penalised score `scores.get(node_id, 0.0) * max(penalty_factor, 0.0)`. */
  function Adjusted(env: Env, st: PackState, id: string, node: Node): real {
    Lookup(env.scores, id) * PenaltyFactor(env, st, TextField(node, "path"), RoleOf(node))
  }

  /** The state after the penalty for `node` is charged. */
  function Charge(env: Env, st: PackState, id: string, node: Node): PackState {
    st.(penalty := st.penalty + Max(Lookup(env.scores, id) - Adjusted(env, st, id, node), 0.0))
  }

  /** The state after `node` is accepted into the pack (from the charged state `charged`). */
  function Accept(env: Env, st: PackState, charged: PackState, id: string, node: Node): PackState
    requires EnvOk(env) && node in env.nodes && NodeId(node) == id
  {
    var path := TextField(node, "path");
    var role := RoleOf(node);
    charged.(
      selections := st.selections + [Section(id, TokenCount(node), env.signals[id], Lookup(env.ppr, id))],
      tokenIn := st.tokenIn + TokenCount(node),
      fileCounts := st.fileCounts[path := Count(st.fileCounts, path) + 1],
      roleCounts := st.roleCounts[role := Count(st.roleCounts, role) + 1])
  }

  function Step(env: Env, st: PackState, id: string): Turn
    requires EnvOk(env)
  {
    match FindNode(env.nodes, id)
    case None => Continue(st)
    case Some(node) =>
      if st.tokenIn + TokenCount(node) > env.budget then Continue(st)
      else if Adjusted(env, st, id, node) <= 0.0 then Continue(Charge(env, st, id, node))
      else
        var accepted := Accept(env, st, Charge(env, st, id, node), id, node);
        if accepted.tokenIn >= env.budget then Stop(accepted) else Continue(accepted)
  }

  /** The state after the loop has run over `candidates` from `st`. */
  function Select(env: Env, st: PackState, candidates: seq<string>): PackState
    requires EnvOk(env)
    decreases |candidates|
  {
    if candidates == [] then st
    else
      match Step(env, st, candidates[0])
      case Stop(next) => next
      case Continue(next) => Select(env, next, candidates[1..])
  }

  /** The selection loop of `generate_pack`. */
  method GreedyPack(env: Env, candidates: seq<string>) returns (st: PackState)
    requires EnvOk(env)
    ensures st == Select(env, Start, candidates)
  {
    st := Start;
    var i := 0;
    while i < |candidates|
      invariant 0 <= i <= |candidates|
      invariant Select(env, Start, candidates) == Select(env, st, candidates[i..])
    {
      var id := candidates[i];
      assert candidates[i..][1..] == candidates[i + 1..];
      var node := FindNode(env.nodes, id);
      if node.None? {
        i := i + 1;
        continue;
      }
      var prospective := st.tokenIn + TokenCount(node.value);
      if prospective > env.budget {
        i := i + 1;
        continue;
      }
      var adjusted := Adjusted(env, st, id, node.value);
      var charged := Charge(env, st, id, node.value);
      if adjusted <= 0.0 {
        st := charged;
        i := i + 1;
        continue;
      }
      st := Accept(env, st, charged, id, node.value);
      if st.tokenIn >= env.budget {
        return;
      }
      i := i + 1;
    }
  }

  // ---------------------------------------------------------------------------
  // What the loop guarantees

  function Ids(sections: seq<Section>): (r: seq<string>)
    ensures |r| == |sections| && forall i :: 0 <= i < |r| ==> r[i] == sections[i].id
  {
    if sections == [] then [] else [sections[0].id] + Ids(sections[1..])
  }

  function SumTok(sections: seq<Section>): int {
    if sections == [] then 0 else SumTok(sections[..|sections| - 1]) + sections[|sections| - 1].tok
  }

  /** `xs` is `ys` with some elements left out, order kept. */
  predicate IsSubsequence(xs: seq<string>, ys: seq<string>)
    decreases |ys|
  {
    xs == []
    || (ys != [] && (IsSubsequence(xs, ys[1..]) || (xs[0] == ys[0] && IsSubsequence(xs[1..], ys[1..]))))
  }

  predicate Distinct(xs: seq<string>) {
    forall i, j :: 0 <= i < j < |xs| ==> xs[i] != xs[j]
  }

  /** What holds of the loop state at every step. */
  predicate Invariant(env: Env, st: PackState) {
    (st.selections == [] ==> st.tokenIn == 0 && st.fileCounts == map[] && st.roleCounts == map[])
    && (st.selections != [] ==> st.tokenIn <= env.budget)
    && st.tokenIn == SumTok(st.selections)
    && st.penalty >= 0.0
    && forall i :: 0 <= i < |st.selections| ==> Lookup(env.scores, st.selections[i].id) > 0.0
  }

  lemma StartInvariant(env: Env)
    ensures Invariant(env, Start)
  {
  }

  lemma ScaledSign(score: real, factor: real)
    requires factor >= 0.0
    ensures score <= 0.0 ==> score * factor <= 0.0
  {
  }

  /** A step keeps the invariant, extends the selections by at most the current candidate,
      and never lowers the accumulated penalty. */
  lemma AdjustedSign(env: Env, st: PackState, id: string, node: Node)
    ensures Adjusted(env, st, id, node) > 0.0 ==> Lookup(env.scores, id) > 0.0
  {
    ScaledSign(Lookup(env.scores, id), PenaltyFactor(env, st, TextField(node, "path"), RoleOf(node)));
  }

  lemma ChargeKeeps(env: Env, st: PackState, id: string, node: Node)
    requires Invariant(env, st)
    ensures Invariant(env, Charge(env, st, id, node))
    ensures Charge(env, st, id, node).penalty >= st.penalty
  {
  }

  lemma AcceptKeeps(env: Env, st: PackState, charged: PackState, id: string, node: Node)
    requires EnvOk(env) && node in env.nodes && NodeId(node) == id
    requires Invariant(env, st) && charged.penalty >= st.penalty
    requires st.tokenIn + TokenCount(node) <= env.budget && Lookup(env.scores, id) > 0.0
    ensures var next := Accept(env, st, charged, id, node);
            Invariant(env, next) && next.penalty >= st.penalty
            && |next.selections| == |st.selections| + 1 && next.selections[..|st.selections|] == st.selections
            && next.selections[|st.selections|].id == id
  {
    var next := Accept(env, st, charged, id, node);
    assert next.selections[..|next.selections| - 1] == st.selections;
  }

  lemma StepInvariant(env: Env, st: PackState, id: string)
    requires EnvOk(env) && Invariant(env, st)
    ensures Invariant(env, Step(env, st, id).st)
    ensures Step(env, st, id).st.penalty >= st.penalty
    ensures var next := Step(env, st, id).st;
            next.selections == st.selections
            || (|next.selections| == |st.selections| + 1 && next.selections[..|st.selections|] == st.selections
                && next.selections[|st.selections|].id == id)
    ensures Step(env, st, id).Stop? ==> Step(env, st, id).st.tokenIn >= env.budget
  {
    var node := FindNode(env.nodes, id);
    if node.Some? && st.tokenIn + TokenCount(node.value) <= env.budget {
      var n := node.value;
      AdjustedSign(env, st, id, n);
      ChargeKeeps(env, st, id, n);
      if Adjusted(env, st, id, n) > 0.0 {
        AcceptKeeps(env, st, Charge(env, st, id, n), id, n);
      }
    }
  }

  /** The ids the loop added on top of `st.selections` to reach `r.selections`. */
  function Added(st: PackState, r: PackState): seq<string>
    requires |st.selections| <= |r.selections|
  {
    Ids(r.selections[|st.selections|..])
  }

  predicate Extends(st: PackState, r: PackState) {
    |st.selections| <= |r.selections| && r.selections[..|st.selections|] == st.selections
  }

  /** Everything the loop selects, over any candidate list, obeys the budget, comes from the list
      in list order, and has a positive combined score; the penalty only grows. */
  lemma {:induction false} SelectInvariant(env: Env, st: PackState, candidates: seq<string>)
    requires EnvOk(env) && Invariant(env, st)
    ensures var r := Select(env, st, candidates);
            Invariant(env, r) && r.penalty >= st.penalty && Extends(st, r)
            && IsSubsequence(Added(st, r), candidates)
    decreases |candidates|
  {
    if candidates != [] {
      StepInvariant(env, st, candidates[0]);
      var turn := Step(env, st, candidates[0]);
      var next := turn.st;
      if turn.Stop? {
        assert Select(env, st, candidates) == next;
        StopAdds(st, next, candidates);
      } else {
        assert Select(env, st, candidates) == Select(env, next, candidates[1..]);
        SelectInvariant(env, next, candidates[1..]);
        ContinueAdds(st, next, Select(env, next, candidates[1..]), candidates);
      }
    }
  }

  lemma StopAdds(st: PackState, next: PackState, candidates: seq<string>)
    requires candidates != []
    requires next.selections == st.selections
             || (|next.selections| == |st.selections| + 1 && next.selections[..|st.selections|] == st.selections
                 && next.selections[|st.selections|].id == candidates[0])
    ensures Extends(st, next) && IsSubsequence(Added(st, next), candidates)
  {
    if next.selections != st.selections {
      assert Added(st, next) == [candidates[0]];
      assert IsSubsequence([], candidates[1..]);
    }
  }

  lemma ContinueAdds(st: PackState, next: PackState, r: PackState, candidates: seq<string>)
    requires candidates != []
    requires next.selections == st.selections
             || (|next.selections| == |st.selections| + 1 && next.selections[..|st.selections|] == st.selections
                 && next.selections[|st.selections|].id == candidates[0])
    requires Extends(next, r) && IsSubsequence(Added(next, r), candidates[1..])
    ensures Extends(st, r) && IsSubsequence(Added(st, r), candidates)
  {
    if next.selections != st.selections {
      assert r.selections[|st.selections|..] == [next.selections[|st.selections|]] + r.selections[|next.selections|..];
      assert Added(st, r) == [candidates[0]] + Added(next, r);
      assert ([candidates[0]] + Added(next, r))[1..] == Added(next, r);
    }
  }

  /** A subsequence of a list without repeats has no repeats, and draws only from the list. */
  lemma {:induction false} SubsequenceDistinct(xs: seq<string>, ys: seq<string>)
    requires IsSubsequence(xs, ys) && Distinct(ys)
    ensures Distinct(xs)
    ensures forall x :: x in xs ==> x in ys
    decreases |ys|
  {
    if xs != [] {
      if IsSubsequence(xs, ys[1..]) {
        SubsequenceDistinct(xs, ys[1..]);
      } else {
        SubsequenceDistinct(xs[1..], ys[1..]);
        assert forall j :: 0 < j < |xs| ==> xs[j] in ys[1..];
        assert xs == [xs[0]] + xs[1..];
      }
    }
  }

  /** The pack's guarantees: the accepted tokens sum to `token_in`, which never exceeds the budget
      (and is 0 when nothing is chosen); the chosen ids are distinct candidates in candidate order;
      none has a non-positive combined score; the diversity penalty is non-negative. */
  lemma PackGuarantees(env: Env, candidates: seq<string>)
    requires EnvOk(env) && Distinct(candidates)
    ensures var r := Select(env, Start, candidates);
            r.tokenIn == SumTok(r.selections)
            && (r.selections == [] ==> r.tokenIn == 0)
            && (r.selections != [] ==> r.tokenIn <= env.budget)
            && IsSubsequence(Ids(r.selections), candidates)
            && Distinct(Ids(r.selections))
            && (forall s :: s in r.selections ==> s.id in candidates && Lookup(env.scores, s.id) > 0.0)
            && r.penalty >= 0.0
  {
    var r := Select(env, Start, candidates);
    SelectInvariant(env, Start, candidates);
    assert r.selections[0..] == r.selections;
    assert Added(Start, r) == Ids(r.selections);
    SubsequenceDistinct(Ids(r.selections), candidates);
    forall s | s in r.selections ensures s.id in candidates && Lookup(env.scores, s.id) > 0.0 {
      var i :| 0 <= i < |r.selections| && r.selections[i] == s;
      assert Ids(r.selections)[i] == s.id;
    }
  }

  /** A candidate that would overflow the budget is skipped, not a reason to stop: the loop goes
      on from the same state with the remaining candidates. */
  lemma OverflowSkipsNotStops(env: Env, st: PackState, id: string, rest: seq<string>)
    requires EnvOk(env)
    requires FindNode(env.nodes, id).Some?
    requires st.tokenIn + TokenCount(FindNode(env.nodes, id).value) > env.budget
    ensures Step(env, st, id) == Continue(st)
    ensures Select(env, st, [id] + rest) == Select(env, st, rest)
  {
    assert ([id] + rest)[0] == id && ([id] + rest)[1..] == rest;
  }

  /** A candidate id that no node carries is skipped the same way. */
  lemma MissingSkipped(env: Env, st: PackState, id: string, rest: seq<string>)
    requires EnvOk(env)
    requires forall n :: n in env.nodes ==> NodeId(n) != id
    ensures Step(env, st, id) == Continue(st)
    ensures Select(env, st, [id] + rest) == Select(env, st, rest)
  {
    assert ([id] + rest)[0] == id && ([id] + rest)[1..] == rest;
  }
}

# Day8 workflow tools in Dafny

This project models, in Dafny, the decision-making core of the Day8 repository's workflow
tooling, and proves what that tooling promises.

- **Context-pack engine** (`workflow-cookbook/tools/context/pack.py`, `ppr.py`). Given a node/edge
  graph, an intent and the changed paths, it scores every node by intent overlap (Jaccard),
  diff proximity and role, optionally blends in a personalised PageRank, takes the undirected
  two-hop neighbourhood of the seed nodes as candidates, sorts and caps them, and packs them
  greedily under a token budget with a diversity penalty. Scores are exact reals.
- **Codemap update** (`workflow-cookbook/tools/codemap/update.py`) and the **Birdseye refresh** wrapper
  (`scripts/birdseye_refresh.py`). They deduplicate and sort the index edges, rebuild the sorted
  in/out dependency lists of every capsule, and rewrite a file only when its content changes.
  The file system is a map from paths to texts, and the JSON codec is a parameter.
- **Governance gate** (`workflow-cookbook/tools/ci/check_governance_gate.py`) and its wrapper
  (`tools/ci/check_governance_gate.py`). The gate strips inline comments, reads the forbidden-path
  policy line by line, normalises changed paths, expands `**/` patterns and reports the changed
  paths a pattern covers. The wrapper filters its own flag and decides when to use the sample
  pull-request body.
- **Evaluator helpers** (`quality/evaluator/cli.py`). They decode YAML 1.2 scalars: double-quoted
  escapes (section 5.7), single-quoted `''` folding (section 7.3.2) and block-scalar chomping
  (section 8.1.1.2). They also pair expected records with outputs by id, match guardrail rules,
  count violations by severity, and make the pass/review decisions.
- **Metrics collector** (`scripts/perf/collect_metrics.py`). It splits Prometheus text-exposition
  sample lines right to left, honouring escaped quotes. It normalises metric names and labels,
  folds repeated samples by max, sum or replacement, merges sources with the first source
  winning, and reports the required metrics that are missing.
- **Reflection analyzer settings** (`workflow-cookbook/scripts/analyze.py`). These cover the fallback
  reader of the reflection manifest, the manifest-driven booleans, the report output path and
  the flaky rate.

Each file stays in the form of its source. Loops become methods with invariants, each proved
equal to a specification function. Pure code becomes functions. Lemmas state the properties
the code promises: the budget invariant of the packer, mass conservation of the ranking, the
exact two-hop ball of the breadth-first search, round trips of the label and escape codecs,
first-wins merging, and so on.

## Model

| member | source | states |
|---|---|---|
| Ppr.IdToIndexFacts | workflow-cookbook/tools/context/ppr.py:18 | the id index covers exactly the node ids, each id maps to a node carrying that id, and no later node repeats it (a duplicate id keeps its last position) |
| Ppr.IdToIndexLatest | workflow-cookbook/tools/context/ppr.py:18 | the dict comprehension keeps the last position of a repeated id |
| Ppr.BuildEdgeLists | workflow-cookbook/tools/context/ppr.py:19-27 | the edge loop builds exactly the adjacency lists of `EdgeLists` (edges whose src or dst is unknown are skipped, duplicates kept in order) and `outdeg[i]` is the length of list `i` |
| Ppr.SeedIsDistribution | workflow-cookbook/tools/context/ppr.py:29-34 | the clamped, normalised seed (uniform when every base score is 0 or negative) is non-negative and sums to 1 |
| Ppr.SpreadShare | workflow-cookbook/tools/context/ppr.py:40-43 | every entry gains `share`, so the total gains `N * share` |
| Ppr.PushAlong | workflow-cookbook/tools/context/ppr.py:48-49 | the inner edge loop yields `Along(next0, targets, weight)` |
| Ppr.AlongAt | workflow-cookbook/tools/context/ppr.py:48-49 | each entry gains `weight` once per occurrence among the targets |
| Ppr.AlongSum | workflow-cookbook/tools/context/ppr.py:48-49 | the total gains `weight` times the number of targets |
| Ppr.PushEdges | workflow-cookbook/tools/context/ppr.py:44-49 | the source loop yields `Pushed(...)`: nodes with out-degree 0 push nothing, the others push `lam * ranks[src] / deg` along every edge |
| Ppr.PushedAt | workflow-cookbook/tools/context/ppr.py:44-49 | entry `i` gains exactly its inflow: the sum of `lam * ranks[j] / outdeg[j]` over every edge `j -> i` |
| Ppr.PushedSum | workflow-cookbook/tools/context/ppr.py:44-49 | the edge push adds `lam` times the rank mass of the nodes with out-edges |
| Ppr.PushedNonNegative | workflow-cookbook/tools/context/ppr.py:44-49 | non-negative ranks and `lam >= 0` keep the vector non-negative |
| Ppr.PushedNoEdges | workflow-cookbook/tools/context/ppr.py:44-46 | without out-edges the push changes nothing |
| Ppr.Teleport | workflow-cookbook/tools/context/ppr.py:38-43 | the teleport part of a round is `(1 - lam) * seed[i]` plus the dangling share `lam * dangling / N` (added only when the dangling mass is non-zero) |
| Ppr.TeleportedSum | workflow-cookbook/tools/context/ppr.py:38-43 | the teleport part totals `(1 - lam) * sum(seed) + lam * dangling` |
| Ppr.TeleportNonNegative | workflow-cookbook/tools/context/ppr.py:38-43 | for `lam` in [0, 1] the teleport part of non-negative inputs is non-negative |
| Ppr.TeleportUniform | workflow-cookbook/tools/context/ppr.py:38-43 | with no out-edges and a uniform seed the teleport part is uniform |
| Ppr.StepSplit | workflow-cookbook/tools/context/ppr.py:38-49 | the per-entry round formula `(1 - lam) * seed[i] + share + inflow(i)` equals the teleport part followed by the edge push |
| Ppr.StepMass | workflow-cookbook/tools/context/ppr.py:38-49 | a round maps a distribution to a distribution: total 1 in, total 1 out, for any `lam` |
| Ppr.Conserve | workflow-cookbook/tools/context/ppr.py:38-49 | the mass bookkeeping of one round: teleport plus dangling share plus linked push add up to 1 |
| Ppr.StepNonNegative | workflow-cookbook/tools/context/ppr.py:38-49 | for `lam` in [0, 1] a round keeps ranks non-negative |
| Ppr.StepUniform | workflow-cookbook/tools/context/ppr.py:38-49 | with no out-edges and a uniform seed a round keeps uniform ranks uniform |
| Ppr.Iterate | workflow-cookbook/tools/context/ppr.py:38-49 | one loop round computes exactly `Step(ranks, seed, adjacency, outdeg, lam)` |
| Ppr.PowerInvariant | workflow-cookbook/tools/context/ppr.py:36-53 | after any number of rounds from the uniform start the ranks sum to 1, are non-negative for `lam` in [0, 1], and stay uniform without edges under a uniform seed |
| Ppr.PowerIteration | workflow-cookbook/tools/context/ppr.py:36-53 | the loop runs at least one and at most `max(iters, 1)` rounds, stops after the first round whose L1 change is below `tol`, records each round's change, and returns the ranks after that many rounds |
| Ppr.RoundsOfRecorded | workflow-cookbook/tools/context/ppr.py:37-53 | a run that went on while the change was at least `tol` and stopped early only below it ran exactly `Rounds` rounds: the first whose L1 change is below `tol`, or `max(iters, 1)` |
| Ppr.PprScoresFacts | workflow-cookbook/tools/context/ppr.py:14-56 | the specified scores key exactly the node ids, are non-negative for `lam` in [0, 1], sum to 1 with distinct ids, and are all `1/N` with no usable edge and no positive base score |
| Ppr.KeyedSum | workflow-cookbook/tools/context/ppr.py:55-56 | with distinct ids the returned dict read back in node order is the rank vector |
| Ppr.KeyedNonNegative | workflow-cookbook/tools/context/ppr.py:55-56 | non-negative ranks give non-negative scores |
| Ppr.NoEdgesUniform | workflow-cookbook/tools/context/ppr.py:21-34 | when no edge joins two known ids and no base score is positive, there are no out-edges and the seed is uniform |
| Ppr.PersonalizeScores | workflow-cookbook/tools/context/ppr.py:6-56 | the method returns exactly `PprScores`: the normalised power-iteration ranks after the rounds the loop runs, keyed by id; hence an empty graph gives `{}`, every node id gets a score, scores are non-negative for `lam` in [0, 1], sum to 1 with distinct ids, and are all `1/N` when no edge is usable and no base score is positive |
| Neighbourhood.AdjacencyStep | workflow-cookbook/tools/context/pack.py:188-193 | one edge adds the undirected link `src`-`dst` when both ends are known node ids and changes nothing otherwise |
| Neighbourhood.LinkedStep | workflow-cookbook/tools/context/pack.py:188-193 | after one more edge, two ids are linked exactly when they were before or the new edge joins them (either direction) |
| Neighbourhood.BuildAdjacency | workflow-cookbook/tools/context/pack.py:187-193 | the adjacency loop builds `Adjacency(nodes, edges)`: every node id is a key and `b` is a neighbour of `a` exactly when both are known and some edge joins them |
| Neighbourhood.LinkEdges | workflow-cookbook/tools/context/pack.py:188-193 | the edge loop adds exactly the links of `edges` to the empty adjacency |
| Neighbourhood.SeedQueue | workflow-cookbook/tools/context/pack.py:195 | the initial queue holds each seed once, at depth 0 |
| Neighbourhood.ExpandNeighbours | workflow-cookbook/tools/context/pack.py:200-204 | every unvisited neighbour is marked visited and queued once at `depth + 1`; visited neighbours are skipped |
| Neighbourhood.ReachMonotone | workflow-cookbook/tools/context/pack.py:196-204 | a node reachable within `j` hops is reachable within any `k >= j` |
| Neighbourhood.Walk | workflow-cookbook/tools/context/pack.py:194-205 | the breadth-first walk returns exactly the seeds plus every known node within `hops` undirected steps of a seed (sound and complete); a negative `hops` returns the seeds |
| Neighbourhood.CandidateNeighbourhood | workflow-cookbook/tools/context/pack.py:181-205 | `_candidate_neighbourhood` returns exactly the `hops`-ball around the seeds over the undirected adjacency of the known ids |
| Neighbourhood.BallExact | workflow-cookbook/tools/context/pack.py:194-205 | a set between the seeds and the known ids holding exactly the reachable nodes is the ball |
| Neighbourhood.WalkStep | workflow-cookbook/tools/context/pack.py:196-204 | one pop of the queue (skip at depth `>= hops`, else expand) keeps the walk invariant (layered queue, visited sound) and makes progress |
| Neighbourhood.LayeredAdvance | workflow-cookbook/tools/context/pack.py:196-204 | the breadth-first layer invariant moves to the next depth once no node of the current depth is pending |
| Neighbourhood.LayeredExpand | workflow-cookbook/tools/context/pack.py:200-204 | expanding a node at the current depth keeps queue depths sorted within one layer and every visited node below `hops` either expanded or queued |
| Neighbourhood.LayeredDone | workflow-cookbook/tools/context/pack.py:196 | once the queue is empty under the layer invariant, every node within `hops` steps of a seed is visited |
| Neighbourhood.ReachClosed | workflow-cookbook/tools/context/pack.py:194-205 | a visited set holding the seeds and closed under neighbours holds every reachable node |
| ContextSignals.PyIntTruncates | workflow-cookbook/tools/context/pack.py:219-224 | `int()` of a float token count truncates toward zero |
| ContextSignals.TokenCountOfFirst | workflow-cookbook/tools/context/pack.py:220-223 | when the key at position `i` holds a number and no earlier key does, the count is `int()` of that number |
| ContextSignals.TokenCountOfNone | workflow-cookbook/tools/context/pack.py:220-224 | when no key holds a number the count is 0 |
| ContextSignals.TokenCountKeys | workflow-cookbook/tools/context/pack.py:219-224 | `tok` wins when it holds a number, then `tokens`, then `token_count`; a node with none of them numeric counts 0 tokens |
| ContextSignals.Tokenize | workflow-cookbook/tools/context/pack.py:86-87 | every token is a non-empty run of `[a-z0-9]` characters |
| ContextSignals.RunsAcrossSeparator | workflow-cookbook/tools/context/pack.py:86-87 | a non-word character splits the token runs: the runs of `x + c + y` are the runs of `x` and of `y` |
| ContextSignals.TokenizeJoined | workflow-cookbook/tools/context/pack.py:101 | tokenizing `heading + " " + path` gives the union of the two token sets |
| ContextSignals.ComputeIntentProfile | workflow-cookbook/tools/context/pack.py:90-97 | the intent role is empty exactly when none of impl/ops/spec/risk is a token, and otherwise is one of them that is a token |
| ContextSignals.FirstRoleSkips | workflow-cookbook/tools/context/pack.py:93-96 | the role found is the first of the list that is a token |
| ContextSignals.IntentMatchTokens | workflow-cookbook/tools/context/pack.py:100-110 | `_intent_match` is the Jaccard index of the intent tokens and the node's heading and path tokens |
| ContextSignals.JaccardRange | workflow-cookbook/tools/context/pack.py:102-110 | the match lies in [0, 1]; it is 0 exactly when the intent has no tokens or shares none, and 1 exactly when both token sets are equal and non-empty |
| ContextSignals.JaccardSymmetric | workflow-cookbook/tools/context/pack.py:106-110 | for non-empty token sets the match is symmetric |
| ContextSignals.DiffScoreTiers | workflow-cookbook/tools/context/pack.py:113-124 | `_diff_score` is one of 0, 0.4, 0.7, 1; it is 1 exactly for a changed path and at least 0.7 exactly for a changed path or one under a changed file's parent |
| ContextSignals.DiffScoreMonotone | workflow-cookbook/tools/context/pack.py:113-124 | more changed paths never lower the diff score |
| ContextSignals.BareFileParent | workflow-cookbook/tools/context/pack.py:118-121 | a changed bare file name has parent "." and so gives 0.7 to every path starting with "." |
| ContextSignals.RoleScoreCases | workflow-cookbook/tools/context/pack.py:162-167 | role signal 0.6 when the roles agree, 0.2 when both are set and differ, 0.4 when either is missing; symmetric |
| ContextSignals.BaseSignals | workflow-cookbook/tools/context/pack.py:149-174 | the intent match lies in [0, 1], the diff score is one of 0, 0.4, 0.7, 1 and is 1 exactly for a changed path, the role score is one of 0.2, 0.4, 0.6, and with recency and hub scores in [0, 1] every signal is in [0, 1] |
| ContextSignals.CombineScoreBounds | workflow-cookbook/tools/context/pack.py:177-178 | with signals in [0, 1] and non-negative weights the combined score lies between 0 and the weight total |
| ContextSignals.CombineScoreMonotone | workflow-cookbook/tools/context/pack.py:177-178 | with non-negative weights the combined score grows with every signal |
| Packer.FindNode | workflow-cookbook/tools/context/pack.py:275 | the lookup finds a node with the wanted id, and finds none exactly when no node carries it |
| Packer.GreedyPack | workflow-cookbook/tools/context/pack.py:268-306 | the selection loop computes `Select(env, Start, candidates)`: unknown ids and over-budget nodes are skipped, a zero adjusted score is charged and skipped, and the loop stops once the budget is reached |
| Packer.ChargeKeeps | workflow-cookbook/tools/context/pack.py:285-289 | charging the diversity penalty keeps the pack invariant and never lowers the penalty total |
| Packer.AcceptKeeps | workflow-cookbook/tools/context/pack.py:292-304 | accepting a node appends exactly one section with its id and keeps the invariant (tokens within budget, token total equal to the section sum, positive scores) |
| Packer.StepInvariant | workflow-cookbook/tools/context/pack.py:274-306 | one loop turn keeps the invariant, never lowers the penalty, appends at most the current id, and breaks only with the budget reached |
| Packer.SelectInvariant | workflow-cookbook/tools/context/pack.py:274-306 | the whole loop extends the selections by a subsequence of the candidates and keeps the invariant |
| Packer.SubsequenceDistinct | workflow-cookbook/tools/context/pack.py:274 | a subsequence of distinct candidates is distinct and drawn from the candidates |
| Packer.PackGuarantees | workflow-cookbook/tools/context/pack.py:268-306 | for distinct candidates the pack's token total is the sum of its sections' tokens and within budget, the sections follow the candidate order without repeats, each has a positive score, and the penalty is non-negative |
| Packer.OverflowSkipsNotStops | workflow-cookbook/tools/context/pack.py:278-281 | a candidate whose tokens would overflow the budget is skipped, not a reason to stop: the loop goes on from the same state with the remaining candidates |
| Packer.MissingSkipped | workflow-cookbook/tools/context/pack.py:275-277 | a candidate id no node carries is skipped and the loop goes on from the same state |
| ContextPack.ParseBudgetPlain | workflow-cookbook/tools/context/pack.py:208-212 | a plain integer budget text parses back to its value |
| ContextPack.ParseBudgetThousands | workflow-cookbook/tools/context/pack.py:208-212 | a padded budget such as " 12K " parses to 12000: surrounding whitespace is stripped, the `k`/`K` suffix is case-insensitive and multiplies by 1000 |
| ContextPack.ParseBudgetSuffix | workflow-cookbook/tools/context/pack.py:209-211 | a text ending in `k` parses as `int(float(prefix) * 1000)` |
| ContextPack.IdTextsAreNodeIds | workflow-cookbook/tools/context/pack.py:244 | `str(node.get("id", ""))` and `str(node["id"])` agree for nodes with ids |
| ContextPack.SignalsOfShape | workflow-cookbook/tools/context/pack.py:241-247 | the signals dict is keyed by exactly the node ids, each entry being the base signals of a node with that id (the last such node) |
| ContextPack.BaseScoresBounds | workflow-cookbook/tools/context/pack.py:241-247 | with recency and hub in [0, 1] and non-negative weights every base score lies between 0 and the weight total |
| ContextPack.ComputeSignals | workflow-cookbook/tools/context/pack.py:241-247 | the node loop computes the signals dict and the base scores of every node id |
| ContextPack.SignalsOfStep | workflow-cookbook/tools/context/pack.py:243-247 | one loop turn writes (or overwrites) the entry of the node's id |
| ContextPack.FuseScores | workflow-cookbook/tools/context/pack.py:254-257 | the fusion loop computes `theta * ppr + (1 - theta) * base` for every base-scored id, with a missing ranking read as 0 |
| ContextPack.FuseOverAdd | workflow-cookbook/tools/context/pack.py:255-257 | one loop turn adds the fused score of one id |
| ContextPack.FusionIdentity | workflow-cookbook/tools/context/pack.py:251-257 | without the ppr flag (ranking = base scores) fusion returns the base scores unchanged |
| ContextPack.FuseBetween | workflow-cookbook/tools/context/pack.py:257 | for `theta` in [0, 1] the fused score lies between the ranking and the base score |
| ContextPack.Seeds | workflow-cookbook/tools/context/pack.py:259 | an id is a seed exactly when its intent or diff signal is positive |
| ContextPack.CandidateIds | workflow-cookbook/tools/context/pack.py:260-264 | with seeds the candidate set is exactly the 2-hop ball around them; without seeds it is every node id |
| ContextPack.HasBest | workflow-cookbook/tools/context/pack.py:265 | every non-empty id set has an id of maximal score |
| ContextPack.SortByScore | workflow-cookbook/tools/context/pack.py:265 | the sorted list holds every candidate id exactly once, by non-increasing score |
| ContextPack.Prefix | workflow-cookbook/tools/context/pack.py:266 | `s[:n]` is a prefix of length `min(n, len(s))` for `n >= 0` and of `len(s) + n` (at least 0) for negative `n` |
| ContextPack.PrefixDominates | workflow-cookbook/tools/context/pack.py:265-266 | cutting a descending list keeps `CutLength` entries, each scoring at least as high as every entry cut off |
| ContextPack.PrefixKeeps | workflow-cookbook/tools/context/pack.py:266 | the cut list stays distinct and descending and draws from the full list |
| ContextPack.RankCandidates | workflow-cookbook/tools/context/pack.py:259-266 | the candidate list is distinct, descending by score, drawn from the candidate pool, of length `min(limit, |pool|)` (Python slice length), and every candidate scores at least as high as every pool id left out |
| ContextPack.ScoreNodes | workflow-cookbook/tools/context/pack.py:241-257 | the signals are those of every node id, the scores fuse the base scores with the ranking; with the ppr flag the ranking is `PprScores` of the base scores (keyed by the node ids, non-negative for `lam` in [0, 1]), without it ranking and scores are the base scores |
| ContextPack.PresentCount | workflow-cookbook/tools/context/pack.py:310-312 | there are never more unique paths than sections, and as many exactly when every section has its own truthy path |
| ContextPack.DupRateRange | workflow-cookbook/tools/context/pack.py:308-312 | the duplicate rate lies in [0, 1] and is 0 exactly when nothing is selected or every selected node has its own non-empty path |
| ContextPack.GeneratePack | workflow-cookbook/tools/context/pack.py:227-336 | the pack's sections, token total and penalty are those of the greedy selection over the ranked candidates (which satisfy the `RankCandidates` guarantees); its scores fuse the base scores with the ranking, which is `PprScores` with the ppr flag and the base scores without; `token_src` sums all node tokens and the duplicate rate is the unique-path ratio in [0, 1] |
| PackConfig.ParseScalarInt | workflow-cookbook/tools/context/pack.py:30-38 | the text of an integer parses back to that integer |
| PackConfig.ParseScalarBool | workflow-cookbook/tools/context/pack.py:32-33 | "true" and "false", in any letter case, parse to 1 and 0 |
| PackConfig.ParseScalarPoint | workflow-cookbook/tools/context/pack.py:34-35 | a non-boolean value containing "." parses as a float, and fails exactly when `float()` fails |
| PackConfig.PutAt | workflow-cookbook/tools/context/pack.py:58-62 | storing under the current section path makes the value readable at `path + [key]` |
| PackConfig.PutResolves | workflow-cookbook/tools/context/pack.py:57-60 | storing keeps the current section reachable, and a new mapping is itself reachable |
| PackConfig.PutOthers | workflow-cookbook/tools/context/pack.py:58-62 | storing leaves every other top-level key unchanged |
| PackConfig.StepKeeps | workflow-cookbook/tools/context/pack.py:46-62 | one line keeps the section stack well formed: indents strictly increase and the stack's keys lead to a nested mapping |
| PackConfig.LoadLinesWellFormed | workflow-cookbook/tools/context/pack.py:46-62 | every reachable parser state is well formed |
| PackConfig.TopLevelLine | workflow-cookbook/tools/context/pack.py:49-51 | an unindented line closes every open section |
| PackConfig.TopLevelAssign | workflow-cookbook/tools/context/pack.py:61-62 | an unindented `key: value` stores the parsed scalar at the top level |
| PackConfig.DefaultsWhenAbsent | workflow-cookbook/tools/context/pack.py:63-83 | a payload naming none of the configuration's keys gives every default (0.85, 0.6, 0.4/0.25/0.2/0.1/0.05, 45, 0.15, 0.1, 2000, 50, 1e-6) |
| PackConfig.CommentsOnly | workflow-cookbook/tools/context/pack.py:47-48 | blank and `#` lines leave the payload empty |
| PackConfig.EmptyText | workflow-cookbook/tools/context/pack.py:41-83 | an empty file gives the default configuration |
| PackConfig.NoneStays | workflow-cookbook/tools/context/pack.py:62 | once a scalar fails to parse the whole load fails |
| PackConfig.LoadConfig | workflow-cookbook/tools/context/pack.py:41-83 | the line loop and field reads compute `LoadConfigText(text)` |
| PackConfig.ReadLine | workflow-cookbook/tools/context/pack.py:47-62 | one line of the loop performs the step function `Step`: skip blanks and comments, pop deeper sections, then place the line |
| PackConfig.PopFrames | workflow-cookbook/tools/context/pack.py:50-51 | the pop loop keeps exactly the open sections indented less than the line |
| PackConfig.PlaceLine | workflow-cookbook/tools/context/pack.py:52-62 | a line without `:` is ignored; `key:` opens a section, `key: value` stores the scalar, and an unparsable scalar fails |
| Codemap.PairTransitive | workflow-cookbook/tools/codemap/update.py:114 | the tuple order used by `sorted(pairs)` is transitive |
| Codemap.PairTotal | workflow-cookbook/tools/codemap/update.py:114 | the tuple order is total |
| Codemap.InsertPair | workflow-cookbook/tools/codemap/update.py:113-114 | inserting into a strictly sorted pair list keeps it strictly sorted and adds exactly the new pair |
| Codemap.Normalised | workflow-cookbook/tools/codemap/update.py:107-114 | the normalised edges are strictly sorted and hold exactly the `[str(a), str(b)]` pairs of the two-element list entries |
| Codemap.NormaliseEdges | workflow-cookbook/tools/codemap/update.py:107-114 | the normalising loop computes `Normalised(edges)`: sorted, without duplicates, exactly the well-shaped pairs |
| Codemap.StrictlySortedUnique | workflow-cookbook/tools/codemap/update.py:114 | a strictly sorted pair list is determined by its members |
| Codemap.NormaliseIdempotent | workflow-cookbook/tools/codemap/update.py:107-114 | normalising already normalised edges gives them back |
| Codemap.SortedOut | workflow-cookbook/tools/codemap/update.py:159-169 | `deps_out` is keyed by the sources, each mapped to its targets sorted |
| Codemap.SortedIn | workflow-cookbook/tools/codemap/update.py:159-169 | `deps_in` is keyed by the targets, each mapped to its sources sorted |
| Codemap.PrepareDependencies | workflow-cookbook/tools/codemap/update.py:159-169 | the dependency loops compute `SortedOut` and `SortedIn` |
| Codemap.DependenciesMatchEdges | workflow-cookbook/tools/codemap/update.py:159-169 | each dependency list is sorted, and `t` is among the out-dependencies of `s` (and `s` among the in-dependencies of `t`) exactly when `(s, t)` is an edge |
| Codemap.RefreshSpec | workflow-cookbook/tools/codemap/update.py:137-142 | a dependency field is replaced exactly when its list differs from the wanted one, afterwards reads as the wanted list, and no other field changes; `list()` of a non-list fails |
| Codemap.RefreshBoth | workflow-cookbook/tools/codemap/update.py:137-142 | refreshing `deps_out` then `deps_in` sets both to the wanted lists and touches nothing else |
| Codemap.CapsuleRewriteWhen | workflow-cookbook/tools/codemap/update.py:130-146 | a capsule is rewritten exactly when a dependency list differs or the timestamp is forced and differs |
| Codemap.CapsuleRewriteContent | workflow-cookbook/tools/codemap/update.py:136-146 | a rewritten capsule carries the new dependency lists and the timestamp, with every other field unchanged |
| Codemap.StampKeepsDeps | workflow-cookbook/tools/codemap/update.py:145 | stamping `generated_at` leaves the dependency fields alone |
| Codemap.CapsuleStepSettles | workflow-cookbook/tools/codemap/update.py:130-146 | a rewritten capsule needs no further rewrite |
| Codemap.Written | workflow-cookbook/tools/codemap/update.py:44-63 | `_write_json_if_changed` puts the new text at the path unless it is a dry run, and changes no other file |
| Codemap.LoadObject | workflow-cookbook/tools/codemap/update.py:28-37 | a load succeeds exactly when the file exists and parses to a JSON object, and then yields that object |
| Codemap.CapsuleAt | workflow-cookbook/tools/codemap/update.py:130-146 | processing one capsule changes no other file |
| Codemap.HotRun | workflow-cookbook/tools/codemap/update.py:149-156 | the hot-file update changes no other file |
| Codemap.PlanOf | workflow-cookbook/tools/codemap/update.py:173-191 | the plan holds the normalised edges and the stored timestamp as `str`; the write payload differs only in `edges`; the index is rewritten exactly when it is emitted and its edges are not normalised or its `generated_at` is missing or not a string; a non-list `edges` fails |
| Codemap.CapsulesDryRun | workflow-cookbook/tools/codemap/update.py:130-146 | a dry run of the capsule pass writes nothing |
| Codemap.CapsulesFrame | workflow-cookbook/tools/codemap/update.py:130-146 | the capsule pass changes only the listed capsules |
| Codemap.KeepByFields | workflow-cookbook/tools/codemap/update.py:136-144 | whether a capsule is left alone depends only on its fields, not their order |
| Codemap.CapsuleAtSettles | workflow-cookbook/tools/codemap/update.py:130-146 | after a successful write, reading the capsule back needs no rewrite |
| Codemap.CapsulesSettle | workflow-cookbook/tools/codemap/update.py:130-146 | after a successful pass every listed capsule is settled |
| Codemap.CapsulesIdempotent | workflow-cookbook/tools/codemap/update.py:121-146 | running the capsule pass a second time changes nothing |
| Codemap.TargetDryRun | workflow-cookbook/tools/codemap/update.py:172-210 | a dry run of `_update_target` writes nothing |
| Codemap.IndexPhaseDryRun | workflow-cookbook/tools/codemap/update.py:189-193 | a dry run of the index half writes nothing |
| Codemap.TargetFrame | workflow-cookbook/tools/codemap/update.py:172-210 | `_update_target` changes only the index, its `hot.json` and its listed capsules |
| Codemap.IndexRunWrites | workflow-cookbook/tools/codemap/update.py:192 | a successful index write leaves the dumped payload at the index path |
| Codemap.IndexPhaseHolds | workflow-cookbook/tools/codemap/update.py:185-193 | after the index half the index reads back with the normalised edges and a string `generated_at` |
| Codemap.IndexHoldsNormalisedEdges | workflow-cookbook/tools/codemap/update.py:172-210 | after a successful update with the index emitted, the index holds the normalised edges of the one loaded and a string timestamp |
| Codemap.StampedIndexHolds | workflow-cookbook/tools/codemap/update.py:189-192 | a stamped index write reads back with the planned edges and the new timestamp |
| Codemap.ReadBackField | workflow-cookbook/tools/codemap/update.py:40-41 | with a dump that reads back, every field survives a dump and load |
| Codemap.ParseArgs | workflow-cookbook/tools/codemap/update.py:66-100 | parsing succeeds exactly for a valid `--emit` and at least one non-blank target; emit "index" and "caps" select one half each, "index+caps" both; `--dry-run` is passed through |
| Codemap.ParseArgsJoined | workflow-cookbook/tools/codemap/update.py:89 | comma-joined clean paths parse back to those paths in order |
| Codemap.KeepAllPieces | workflow-cookbook/tools/codemap/update.py:89 | non-blank stripped pieces are all kept |
| Codemap.UpdateRunStep | workflow-cookbook/tools/codemap/update.py:213-215 | targets are updated in order, and the first failure stops the run |
| Codemap.UpdateDryRun | workflow-cookbook/tools/codemap/update.py:213-215 | a dry run of the whole update writes nothing |
| Codemap.Disk.WriteIfChanged | workflow-cookbook/tools/codemap/update.py:44-63 | reports a change exactly when the stored text differs, and leaves the files as `Written` says |
| Codemap.Disk.UpdateCapsules | workflow-cookbook/tools/codemap/update.py:121-146 | the capsule loop leaves the files (and the failure flag) as `Capsules` says |
| Codemap.Disk.UpdateHotTimestamp | workflow-cookbook/tools/codemap/update.py:149-156 | the hot-file update leaves the files as `HotRun` says |
| Codemap.Disk.UpdateTarget | workflow-cookbook/tools/codemap/update.py:172-210 | `_update_target` leaves the files as `TargetRun` says |
| Codemap.Disk.WriteIndex | workflow-cookbook/tools/codemap/update.py:190-193 | the stamped index write, followed by the hot-file update when the index changed, is `IndexRun` |
| Codemap.Disk.RunUpdate | workflow-cookbook/tools/codemap/update.py:213-215 | the target loop leaves the files as `UpdateRun` says |
| Codemap.Disk.Execute | workflow-cookbook/tools/codemap/update.py:218-224 | bad arguments exit with status 2 and touch nothing; otherwise the update runs and the status is 0 exactly when it did not fail, 1 otherwise |
| BirdseyeRefresh.DefaultDocsDirs | scripts/birdseye_refresh.py:8-11 | the default is two well-formed directories, `docs/birdseye` and `workflow-cookbook/docs/birdseye` |
| BirdseyeRefresh.ParseDocsDirs | scripts/birdseye_refresh.py:31-43 | the nested loops over values and comma-separated pieces compute `DocsDirs`: the trimmed non-empty pieces in order, or the defaults when there are none |
| BirdseyeRefresh.CollectPieces | scripts/birdseye_refresh.py:37-40 | the inner loop appends exactly the trimmed non-empty pieces of one value, in order |
| BirdseyeRefresh.KeptPiecesTrimmed | scripts/birdseye_refresh.py:37-40 | every collected piece is non-empty and has no surrounding whitespace |
| BirdseyeRefresh.KeptPiecesAll | scripts/birdseye_refresh.py:37-40 | pieces that are already trimmed and non-empty are all kept, in order |
| BirdseyeRefresh.CollectedConcat | scripts/birdseye_refresh.py:36-40 | repeated `--docs-dir` values contribute their directories in the order given |
| BirdseyeRefresh.DocsDirsNonEmpty | scripts/birdseye_refresh.py:31-43 | the parsed directory list is never empty and every entry is a well-formed path |
| BirdseyeRefresh.DocsDirsJoined | scripts/birdseye_refresh.py:31-43 | trimmed directory names without commas, joined with commas into one value, parse back to themselves in order |
| BirdseyeRefresh.BlankValuesDefault | scripts/birdseye_refresh.py:41-42 | values holding only commas and whitespace fall back to the defaults |
| BirdseyeRefresh.IndexPaths | scripts/birdseye_refresh.py:62-71 | resolution succeeds exactly when there are directories and each has an `index.json`, and then yields `dir/index.json` for each in order; otherwise the error names the first missing index, or says none was resolved for an empty list |
| BirdseyeRefresh.FirstMissing | scripts/birdseye_refresh.py:64-68 | from position `k` on, either every index is present or the first missing one is reported |
| BirdseyeRefresh.ResolveIndexPaths | scripts/birdseye_refresh.py:62-71 | the resolving loop returns `IndexPaths` |
| BirdseyeRefresh.RunRefresh | scripts/birdseye_refresh.py:73-82 | a resolution error fails without touching a file; otherwise the files and the outcome are those of the codemap update over the index paths with both the index and the capsules emitted |
| BirdseyeRefresh.RefreshDryRun | scripts/birdseye_refresh.py:73-82 | a dry-run refresh changes no file |
| GovernanceGate.ScanStep | workflow-cookbook/tools/ci/check_governance_gate.py:41-53 | a `#` stops the scan exactly when it is outside both kinds of quotes; otherwise the scan moves on by one character, or by two after a backslash inside double quotes |
| GovernanceGate.CommentFrom | workflow-cookbook/tools/ci/check_governance_gate.py:40-53 | the scan stops at a `#` or at the end of the text, never before where it started |
| GovernanceGate.CommentStart | workflow-cookbook/tools/ci/check_governance_gate.py:34-54 | the inline comment, if any, begins at a `#` |
| GovernanceGate.StripInlineComment | workflow-cookbook/tools/ci/check_governance_gate.py:34-54 | the character loop returns the text before the first unquoted `#`, right-trimmed |
| GovernanceGate.PlainHash | workflow-cookbook/tools/ci/check_governance_gate.py:40-43 | with no quote or `#` before it, the first `#` starts the comment |
| GovernanceGate.InsideSingle | workflow-cookbook/tools/ci/check_governance_gate.py:45-46 | inside single quotes everything up to the closing quote is kept, `#` included |
| GovernanceGate.ScanShift | workflow-cookbook/tools/ci/check_governance_gate.py:40-53 | scanning from a later position gives the same stop as scanning the suffix from there, shifted |
| GovernanceGate.SingleQuotedHashKept | workflow-cookbook/tools/ci/check_governance_gate.py:34-54 | a `#` inside a single-quoted value does not start a comment |
| GovernanceGate.Variants | workflow-cookbook/tools/ci/check_governance_gate.py:189-200 | the variants start with the pattern itself, each later one drops one more leading `**/` and is not empty, and every one but the last still starts with `**/` |
| GovernanceGate.VariantsDistinct | workflow-cookbook/tools/ci/check_governance_gate.py:196-199 | no variant repeats, so the duplicate check never stops the loop early |
| GovernanceGate.VariantsComplete | workflow-cookbook/tools/ci/check_governance_gate.py:192-195 | the loop stops only when no `**/` is left, or when one is left with nothing after it |
| GovernanceGate.GeneratePatternVariants | workflow-cookbook/tools/ci/check_governance_gate.py:189-200 | the loop returns `Variants(pattern)` |
| GovernanceGate.Slashes | workflow-cookbook/tools/ci/check_governance_gate.py:179 | every backslash becomes `/`, and nothing else changes |
| GovernanceGate.Cleaned | workflow-cookbook/tools/ci/check_governance_gate.py:179 | after `lstrip("./")` the path does not start with `.` or `/` |
| GovernanceGate.DropPrefixes | workflow-cookbook/tools/ci/check_governance_gate.py:182-183 | the kept parts are a suffix of the parts whose first part is not a repository prefix, and every dropped part was one |
| GovernanceGate.NormalizeChangedPath | workflow-cookbook/tools/ci/check_governance_gate.py:175-186 | the prefix-dropping loop returns `NormalizedPath` |
| GovernanceGate.NormalizedEmpty | workflow-cookbook/tools/ci/check_governance_gate.py:175-186 | a path normalises to the empty string exactly when it is blank |
| GovernanceGate.NormalizedReparses | workflow-cookbook/tools/ci/check_governance_gate.py:180-186 | a path that keeps some parts normalises to the `/`-joined parts, which parse back to them |
| GovernanceGate.KeptWellFormed | workflow-cookbook/tools/ci/check_governance_gate.py:182-186 | the kept parts still form a well-formed path |
| GovernanceGate.OnlyPrefixesKept | workflow-cookbook/tools/ci/check_governance_gate.py:184-185 | a path made only of repository prefixes is returned whole, as `str(posix_path)` |
| GovernanceGate.Indent | workflow-cookbook/tools/ci/check_governance_gate.py:82 | the indent counts exactly the leading spaces |
| GovernanceGate.ClassifyLine | workflow-cookbook/tools/ci/check_governance_gate.py:79-100 | a blank or comment line is skipped; any other line keeps its indent, and a plain line has no colon and is not empty |
| GovernanceGate.ClassifyContent | workflow-cookbook/tools/ci/check_governance_gate.py:84-103 | content ending in `:` is a header, content with a colon is a key and value split at the first colon, and the rest is plain |
| GovernanceGate.Unquote | workflow-cookbook/tools/ci/check_governance_gate.py:122-123 | removing one pair of matching quotes never lengthens the value |
| GovernanceGate.AppendItems | workflow-cookbook/tools/ci/check_governance_gate.py:62-68 | the loop appends the non-empty strings of the literal list, leading slashes stripped, and reports whether it appended any |
| GovernanceGate.ExtendInlineSequence | workflow-cookbook/tools/ci/check_governance_gate.py:57-69 | a literal that is not a list or tuple, or does not parse, appends nothing and reports false; otherwise as `AppendItems` |
| GovernanceGate.ReadPolicyLine | workflow-cookbook/tools/ci/check_governance_gate.py:78-129 | one pass of the reading loop changes the state as `PolicyStep` of the classified line |
| GovernanceGate.ReadContent | workflow-cookbook/tools/ci/check_governance_gate.py:87-129 | the loop body after the indent and content are known, as `PolicyStep` |
| GovernanceGate.ReadPlain | workflow-cookbook/tools/ci/check_governance_gate.py:117-129 | an item inside the section adds its patterns; any other line at the section's indent or less closes it |
| GovernanceGate.ReadHeader | workflow-cookbook/tools/ci/check_governance_gate.py:87-98 | a top-level key opens or leaves `self_modification`; `forbidden_paths:` inside it opens the section at its indent; another key at that indent or less closes it |
| GovernanceGate.ReadEntry | workflow-cookbook/tools/ci/check_governance_gate.py:100-115 | a `forbidden_paths: [...]` entry inside `self_modification` adds the inline list's patterns and leaves the section closed |
| GovernanceGate.ReadItem | workflow-cookbook/tools/ci/check_governance_gate.py:117-126 | a `- value` item adds the inline list's patterns when it yields any, else the unquoted value without leading slashes unless empty |
| GovernanceGate.AppendPlain | workflow-cookbook/tools/ci/check_governance_gate.py:122-125 | one pair of matching quotes is removed, then a non-empty value is added without leading slashes |
| GovernanceGate.LoadForbiddenPatterns | workflow-cookbook/tools/ci/check_governance_gate.py:72-131 | the loop over the policy lines returns `ForbiddenPatterns(text)` |
| GovernanceGate.InlineItemsUnslashed | workflow-cookbook/tools/ci/check_governance_gate.py:66 | no pattern taken from an inline list starts with `/` |
| GovernanceGate.InlineUnslashed | workflow-cookbook/tools/ci/check_governance_gate.py:57-69 | no pattern `_extend_inline_sequence` adds starts with `/` |
| GovernanceGate.ItemPatternsUnslashed | workflow-cookbook/tools/ci/check_governance_gate.py:117-126 | no pattern an item adds starts with `/` |
| GovernanceGate.StepKeeps | workflow-cookbook/tools/ci/check_governance_gate.py:78-129 | one line never removes a pattern, never adds one starting with `/`, and never leaves the section open outside `self_modification` |
| GovernanceGate.ScanKeeps | workflow-cookbook/tools/ci/check_governance_gate.py:78-131 | the same holds across all the lines |
| GovernanceGate.PatternsUnslashed | workflow-cookbook/tools/ci/check_governance_gate.py:72-131 | no loaded pattern starts with `/` |
| GovernanceGate.OutsideSelfModificationStep | workflow-cookbook/tools/ci/check_governance_gate.py:87-129 | outside `self_modification`, a line that does not open it adds nothing and keeps the section closed |
| GovernanceGate.OutsideSelfModificationScan | workflow-cookbook/tools/ci/check_governance_gate.py:78-131 | lines none of which opens `self_modification` add no pattern |
| GovernanceGate.NoSelfModificationNoPatterns | workflow-cookbook/tools/ci/check_governance_gate.py:72-131 | a policy without a top-level `self_modification` key forbids nothing |
| GovernanceGate.DedentCloses | workflow-cookbook/tools/ci/check_governance_gate.py:96-129 | inside the section, a line at its indent or less that is not an item or a new `forbidden_paths` closes it and adds nothing |
| GovernanceGate.ItemAdds | workflow-cookbook/tools/ci/check_governance_gate.py:117-126 | an item inside the open section adds exactly its own patterns |
| GovernanceGate.MatchesAnyPattern | workflow-cookbook/tools/ci/check_governance_gate.py:216-230 | the loop over the patterns finds a hit exactly when some variant of some pattern covers the path, and stops at the first pattern that does |
| GovernanceGate.MatchesAnyVariant | workflow-cookbook/tools/ci/check_governance_gate.py:218-228 | the loop over one pattern's variants finds a hit exactly when some variant matches the path, or is a `/**` pattern whose base is empty or contains the path |
| GovernanceGate.CollectPatternVariants | workflow-cookbook/tools/ci/check_governance_gate.py:205-210 | the first loop builds the variants of every pattern that does not normalise to the empty string, in order |
| GovernanceGate.FindForbiddenMatches | workflow-cookbook/tools/ci/check_governance_gate.py:203-231 | the loop over the changed paths returns `Forbidden`: each path in order, normalised, when it is not blank and some pattern covers it |
| GovernanceGate.ReportPath | workflow-cookbook/tools/ci/check_governance_gate.py:211-230 | one changed path is reported, once, exactly when its normalised form is not empty and covered |
| GovernanceGate.EndsWithContains | workflow-cookbook/tools/ci/check_governance_gate.py:223 | a candidate ending in `/**` contains `**`, so that test reduces to the suffix |
| GovernanceGate.TableHas | workflow-cookbook/tools/ci/check_governance_gate.py:205-210 | every pattern that normalises to something contributes its variants |
| GovernanceGate.ForbiddenHas | workflow-cookbook/tools/ci/check_governance_gate.py:211-230 | every covered, non-blank changed path is reported |
| GovernanceGate.DirectoryPatternCovers | workflow-cookbook/tools/ci/check_governance_gate.py:223-228 | a pattern ending in `/**` forbids its base directory and everything under it |
| GovernanceGate.ForbiddenSound | workflow-cookbook/tools/ci/check_governance_gate.py:211-230 | every reported path is non-empty and covered by some pattern |
| GovernanceGate.ForbiddenConcat | workflow-cookbook/tools/ci/check_governance_gate.py:211-230 | paths are reported in input order, each independently of the others |
| GovernanceGate.ForbiddenOne | workflow-cookbook/tools/ci/check_governance_gate.py:211-230 | one path yields its normalised form exactly when that is not empty and covered, and nothing otherwise |
| GovernanceGate.NoPatternsNoMatches | workflow-cookbook/tools/ci/check_governance_gate.py:203-231 | with no usable pattern nothing is forbidden |
| GovernanceGate.ValidatePrBody | workflow-cookbook/tools/ci/check_governance_gate.py:358-384 | every body passes, a missing one included: the intent, evaluation and priority checks only warn |
| GovernanceWrapper.PrepareArguments | tools/ci/check_governance_gate.py:34-44 | the loop forwards the arguments without `--use-sample-pr-body` and reports whether the flag occurred; `None` counts as no arguments |
| GovernanceWrapper.WithoutFlagCounts | tools/ci/check_governance_gate.py:39-43 | the flag never survives, every other argument survives as often as it occurred, and the length drops by the number of flags |
| GovernanceWrapper.WithoutFlagConcat | tools/ci/check_governance_gate.py:39-43 | removing the flag keeps the order of the remaining arguments |
| GovernanceWrapper.WithoutFlagIdentity | tools/ci/check_governance_gate.py:39-43 | arguments without the flag are forwarded unchanged |
| GovernanceWrapper.ShouldUseSample | tools/ci/check_governance_gate.py:51-62 | the flag forces the sample; otherwise a non-empty `PR_BODY` prevents it, a missing event path requires it, and with an event path it is used exactly when the event name is set and is not a pull-request event |
| GovernanceWrapper.WithSample | tools/ci/check_governance_gate.py:147-149 | after the sample is applied `PR_BODY` holds it, both event variables are gone and every other variable is unchanged |
| GovernanceWrapper.WrapperHandoff | tools/ci/check_governance_gate.py:135-161 | `None` arguments are forwarded as `None` with the environment untouched; otherwise the gate receives the arguments without the flag, and the sample environment when the sample applies |
| GovernanceWrapper.FlagAppliesSample | tools/ci/check_governance_gate.py:139-149 | with the flag and the sample file present, the gate reads the sample as the body and no event |
| GovernanceWrapper.PullRequestEventKept | tools/ci/check_governance_gate.py:51-62 | without the flag, a pull-request event with its event file is passed to the gate unchanged |
| GovernanceWrapper.SampleSettles | tools/ci/check_governance_gate.py:51-55 | once a non-empty sample is applied, asking again without the flag keeps that body |
| EvaluatorText.HexDigitValue | quality/evaluator/cli.py:81-82 | a hex digit is worth less than 16 |
| EvaluatorText.CodePoint | quality/evaluator/cli.py:82 | `chr` succeeds exactly for a code point up to U+10FFFF outside the surrogates, and yields that code point |
| EvaluatorText.Prefixed | quality/evaluator/cli.py:59-95 | a decoded prefix in front of the rest: success is kept, the prefix is prepended, and a failure is passed through |
| EvaluatorText.PrefixedNil | quality/evaluator/cli.py:59-95 | an empty prefix changes nothing |
| EvaluatorText.PrefixedTwice | quality/evaluator/cli.py:59-95 | two prefixes in a row are one combined prefix |
| EvaluatorText.UnescapeYamlDoubleQuoted | quality/evaluator/cli.py:39-95 | the character loop returns `Unescape(value)` |
| EvaluatorText.NoBackslashUnchanged | quality/evaluator/cli.py:62-67 | a text without backslashes is returned unchanged |
| EvaluatorText.TrailingBackslashKept | quality/evaluator/cli.py:69-72 | a lone backslash at the very end is kept literally |
| EvaluatorText.HexEscapeDecodes | quality/evaluator/cli.py:77-84 | `\x`, `\u` and `\U` followed by 2, 4 or 8 hex digits decode to that code point, or fail as `chr` does |
| EvaluatorText.HexEscapeShort | quality/evaluator/cli.py:85-86 | without enough hex digits the backslash and the code letter are kept, and decoding resumes right after them |
| EvaluatorText.OtherEscape | quality/evaluator/cli.py:88-93 | a named escape gives its character; any other code gives the code itself |
| EvaluatorText.Escape | quality/evaluator/cli.py:40-57 | escaping at most doubles the length and leaves text with nothing to escape unchanged |
| EvaluatorText.EscapeCodeInverse | quality/evaluator/cli.py:40-57 | every escape the writer uses is a named escape that decodes back to the character; characters without one are neither quote nor backslash |
| EvaluatorText.UnescapeEscape | quality/evaluator/cli.py:39-95 | decoding undoes escaping: every text survives a round trip through a double-quoted body |
| EvaluatorText.Scan | quality/evaluator/cli.py:107-126 | the scan stops exactly at a `#` outside quotes that no backslash escapes |
| EvaluatorText.KeptLength | quality/evaluator/cli.py:107-126 | the scan keeps a prefix of the text that ends at a `#` when it ends early |
| EvaluatorText.FoldQuotes | quality/evaluator/cli.py:133 | `replace("''", "'")` never lengthens the text |
| EvaluatorText.DoubleQuotes | quality/evaluator/cli.py:133 | doubling the quotes never shortens the text |
| EvaluatorText.FoldDoubleQuotes | quality/evaluator/cli.py:133 | folding undoes doubling |
| EvaluatorText.NormalizeYamlScalar | quality/evaluator/cli.py:98-136 | the method returns `NormalizeScalar(value)`: the trimmed text up to an unquoted `#`, right-trimmed, then unquoted |
| EvaluatorText.KeepUntilComment | quality/evaluator/cli.py:103-127 | the scan loop copies exactly the first `KeptLength` characters |
| EvaluatorText.KeptAt | quality/evaluator/cli.py:107-126 | one step of the scan either stops or keeps the character and goes on in the new state |
| EvaluatorText.BlankScalar | quality/evaluator/cli.py:99-101 | a whitespace-only scalar is empty |
| EvaluatorText.PlainKept | quality/evaluator/cli.py:107-126 | text without quotes, backslashes or `#` is kept whole |
| EvaluatorText.CommentDropped | quality/evaluator/cli.py:124-128 | an unquoted `#` starts a comment: the scalar is the right-trimmed text before it |
| EvaluatorText.CommentCut | quality/evaluator/cli.py:124-125 | the scan stops exactly at the first `#` after plain text |
| EvaluatorText.PlainUnwrapped | quality/evaluator/cli.py:129 | plain text is never taken as quoted |
| EvaluatorText.NormalizedUnwrapped | quality/evaluator/cli.py:128-136 | when the kept text, trimmed, is not wrapped in matching quotes, it is the scalar |
| EvaluatorText.PlainScalar | quality/evaluator/cli.py:98-136 | a plain scalar without quotes, backslashes or comments is just trimmed |
| EvaluatorText.StripInside | quality/evaluator/cli.py:99 | every character of the trimmed text occurs in the text |
| EvaluatorText.SingleBodyKept | quality/evaluator/cli.py:116-118 | inside single quotes a body with doubled quotes is kept whole, whatever `#` it holds |
| EvaluatorText.DoubleBodyKept | quality/evaluator/cli.py:108-122 | inside double quotes an escaped body is kept whole |
| EvaluatorText.KeptStep | quality/evaluator/cli.py:107-126 | a character the scan does not stop at is kept |
| EvaluatorText.QuotedKept | quality/evaluator/cli.py:107-128 | the whole of a quoted scalar is kept by the scan |
| EvaluatorText.SingleQuotedRoundTrip | quality/evaluator/cli.py:98-136 | a single-quoted scalar written with doubled quotes reads back as the original text |
| EvaluatorText.DoubleQuotedRoundTrip | quality/evaluator/cli.py:98-136 | a double-quoted scalar written with escapes reads back as the original text |
| EvaluatorText.TokenEnd | quality/evaluator/cli.py:583-586 | the indicator token ends at the first blank, tab or `#` |
| EvaluatorText.IndicatorToken | quality/evaluator/cli.py:582-588 | the token is not empty and starts with the indicator's first character |
| EvaluatorText.ParseIndicator | quality/evaluator/cli.py:582-596 | the style is the first character of the indicator, and the chomping is selected by the rest of the token |
| EvaluatorText.ChompOfLastSign | quality/evaluator/cli.py:591-596 | clip without any sign; otherwise keep exactly when the last sign is `+` and strip exactly when it is `-` |
| EvaluatorText.LastSignStep | quality/evaluator/cli.py:592-596 | how one more character changes which sign is last |
| EvaluatorText.Chomped | quality/evaluator/cli.py:657-665 | strip leaves no final line break; clip with lines leaves exactly one; keep with lines ends in one and only appends; without lines only keep may change the value |
| EvaluatorText.ChompedIdempotent | quality/evaluator/cli.py:657-665 | chomping twice is chomping once |
| EvaluatorText.ChompedSameText | quality/evaluator/cli.py:657-665 | chomping changes only the trailing line breaks |
| EvaluatorPairs.SelectText | quality/evaluator/cli.py:240-246 | the text of the first candidate key whose value is present and not `null`, as `str`, or "" when there is none |
| EvaluatorPairs.Overlay | quality/evaluator/cli.py:252-260 | the overlay keeps every key of the target, adds every non-null binding whose key is not skipped, adds nothing else and never adds `null`; with distinct keys each added key holds its record's value |
| EvaluatorPairs.MetadataContents | quality/evaluator/cli.py:248-261 | metadata never holds `null`, holds every non-null top-level key that is not reserved with its own value (the record's keys win over the `metadata` object), and holds only keys from those two places |
| EvaluatorPairs.CopyBindings | quality/evaluator/cli.py:252-260 | one copying loop of `_extract_metadata` computes `Overlay` |
| EvaluatorPairs.OverlayStep | quality/evaluator/cli.py:252-260 | one more binding sets its key when it is kept and changes nothing otherwise |
| EvaluatorPairs.OverlayLast | quality/evaluator/cli.py:252-260 | the last binding is applied last |
| EvaluatorPairs.ExtractMetadata | quality/evaluator/cli.py:248-261 | the method returns `Metadata(record)`: the `metadata` object first, then the record's own keys |
| EvaluatorPairs.Store | quality/evaluator/cli.py:271 | `expected_map[key] = ...` keeps the insertion order: a new key goes last and an existing key keeps its place |
| EvaluatorPairs.LoadExpected | quality/evaluator/cli.py:263-275 | the expected map is well formed and nothing in it is matched yet |
| EvaluatorPairs.ExpectedKeys | quality/evaluator/cli.py:263-275 | the expected map holds exactly the ids of the expected records, skipping a missing, `null` or empty id |
| EvaluatorPairs.LaterExpectedReplaces | quality/evaluator/cli.py:270-275 | a later expected record with the same id replaces the entry and keeps its place |
| EvaluatorPairs.MatchInputs | quality/evaluator/cli.py:277-300 | the loop over the inputs keeps the expected map well formed |
| EvaluatorPairs.MatchInputConsistent | quality/evaluator/cli.py:277-300 | one input keeps the pairing consistent with the expected map it started from |
| EvaluatorPairs.MatchInputSameIds | quality/evaluator/cli.py:284-300 | one input keeps the ids, their order and their references |
| EvaluatorPairs.MatchInputRecorded | quality/evaluator/cli.py:286-300 | one input keeps exactly one item per matched id |
| EvaluatorPairs.RecordedAppend | quality/evaluator/cli.py:292-299 | matching a new id appends one item carrying its reference and marks it matched |
| EvaluatorPairs.MatchInputAnswered | quality/evaluator/cli.py:278-300 | every matched id was carried by some input |
| EvaluatorPairs.MatchInputsConsistent | quality/evaluator/cli.py:277-300 | the whole input loop keeps the pairing consistent |
| EvaluatorPairs.RepeatIgnored | quality/evaluator/cli.py:288-289 | a repeated input for an id that is already matched changes nothing |
| EvaluatorPairs.Unmatched | quality/evaluator/cli.py:302-304 | the leftover ids are exactly those of the order still unmatched, without repeats |
| EvaluatorPairs.LeftoverItems | quality/evaluator/cli.py:305-311 | each leftover item has no output and its id's reference and metadata |
| EvaluatorPairs.PairingKeys | quality/evaluator/cli.py:277-311 | the matched ids followed by the unmatched ones are distinct and are exactly the expected ids |
| EvaluatorPairs.KeysThenUnmatched | quality/evaluator/cli.py:302-304 | no matched id is also a leftover |
| EvaluatorPairs.AlignedConcat | quality/evaluator/cli.py:292-311 | items that carry their id's reference still do after concatenation |
| EvaluatorPairs.PairingReferences | quality/evaluator/cli.py:292-311 | every item carries its id's expected reference |
| EvaluatorPairs.PairingOutputs | quality/evaluator/cli.py:302-311 | an id that no input carries gets an empty output |
| EvaluatorPairs.UnansweredAreLeftovers | quality/evaluator/cli.py:302-311 | an id no input answered is among the leftovers, whose output is empty |
| EvaluatorPairs.KeyHasInput | quality/evaluator/cli.py:284-299 | a matched id was carried by some input |
| EvaluatorPairs.PairsPerExpectedId | quality/evaluator/cli.py:239-312 | exactly one item per distinct expected id, with the expected reference, and an empty output for an id no input carries |
| EvaluatorPairs.BuildExpectedMap | quality/evaluator/cli.py:263-275 | the loop over the expected records builds `LoadExpected` |
| EvaluatorPairs.MatchRecords | quality/evaluator/cli.py:277-300 | the loop over the inputs computes `MatchInputs` |
| EvaluatorPairs.AppendLeftovers | quality/evaluator/cli.py:302-311 | the loop over the expected map appends the leftover items in insertion order |
| EvaluatorPairs.CollectPairs | quality/evaluator/cli.py:239-312 | `_collect_pairs` returns `Pairs(expected, inputs)` |
| EvaluatorRules.ToMap | quality/evaluator/cli.py:823 | every key of the metadata is in the string-keyed map, and nothing else |
| EvaluatorRules.EmptyMappingMatches | quality/evaluator/cli.py:822-831 | an empty condition mapping matches any metadata |
| EvaluatorRules.MatchesMappingExtraKeys | quality/evaluator/cli.py:822-831 | extra keys in the metadata never spoil a match |
| EvaluatorRules.ScalarConditionMet | quality/evaluator/cli.py:815-819 | a key bound to a scalar is met by metadata binding it to an equal value or one with the same `str` |
| EvaluatorRules.NumberMatchesItsText | quality/evaluator/cli.py:815-819 | an integer and a string match, in either direction, exactly when the string is the integer's decimal text |
| EvaluatorRules.OptionListMatches | quality/evaluator/cli.py:811-812 | a list of options matches any value one of its options matches |
| EvaluatorRules.ExtractContains | quality/evaluator/cli.py:876-886 | at most one value per node, and none unless the nodes are a list |
| EvaluatorRules.ContainsOf | quality/evaluator/cli.py:880-885 | the values are exactly the string `contains` of the mapping nodes |
| EvaluatorRules.EmptyContainsNeverMatches | quality/evaluator/cli.py:892-893 | an empty `contains` never matches |
| EvaluatorRules.ContainsValueOccurs | quality/evaluator/cli.py:891-900 | a candidate occurring in the output matches; one that does not occur matches only through its form without trailing line breaks |
| EvaluatorRules.WhenGuardsRule | quality/evaluator/cli.py:849-850 | a rule whose `when` conditions fail never matches |
| EvaluatorRules.NoValuesNoMatch | quality/evaluator/cli.py:902-905 | with no `contains` values in `any` and `all` a rule never matches, since `all` needs a non-empty list |
| EvaluatorRules.MatchSectionFallsBack | quality/evaluator/cli.py:857-870 | a `match` mapping without `any` falls back to the rule's own `any` list |
| EvaluatorRules.Priority | quality/evaluator/cli.py:24 | a severity has a positive priority, at most 3, exactly when it is critical, major or minor |
| EvaluatorRules.Counts.Bump | quality/evaluator/cli.py:920 | adding a violation raises its own severity's count by one and leaves the others |
| EvaluatorRules.AnyItemMatchesMeans | quality/evaluator/cli.py:919 | `any(...)` holds exactly when some item matches the rule |
| EvaluatorRules.AnyOfMeans | quality/evaluator/cli.py:919 | the left-to-right test holds exactly when some item passes |
| EvaluatorRules.TallyCounts | quality/evaluator/cli.py:915-927 | the counts agree with the violations, and every violation has a known severity |
| EvaluatorRules.TallyNoItems | quality/evaluator/cli.py:909-911 | with no items nothing is counted |
| EvaluatorRules.UnknownSeveritySkipped | quality/evaluator/cli.py:916-918 | a rule with an unknown severity changes nothing |
| EvaluatorRules.MaxSeverity | quality/evaluator/cli.py:929-933 | "none" exactly when nothing is counted; otherwise a counted severity with no higher one counted |
| EvaluatorRules.GuardrailsConsistent | quality/evaluator/cli.py:908-934 | the report's counts agree with its violations, its maximum severity is the highest counted, and with no items everything is zero |
| EvaluatorRules.AnyMatches | quality/evaluator/cli.py:919 | the loop returns `AnyItemMatches` |
| EvaluatorRules.AnyPrefixMatches | quality/evaluator/cli.py:919 | a match among the first items is a match among all |
| EvaluatorRules.AnyOfPrefix | quality/evaluator/cli.py:919 | a pass among the first items is a pass among all |
| EvaluatorRules.HighestCounted | quality/evaluator/cli.py:929-933 | the loop over the severities by decreasing priority returns `MaxSeverity` |
| EvaluatorRules.EvaluateGuardrails | quality/evaluator/cli.py:908-934 | `_evaluate_guardrails` over a loaded rule list returns `Guardrails` |
| EvaluatorRules.ApplyThresholds | quality/evaluator/cli.py:542-550 | the scores are kept; BERTScore passes exactly at an F1 of at least 0.85 and the surface metrics at a ROUGE-L of at least 0.70, a missing score failing |
| EvaluatorRules.ApplyViolationThreshold | quality/evaluator/cli.py:553-558 | the severity is lower-cased, the rest kept, and the threshold is met exactly when it is not critical |
| EvaluatorRules.ViolationThresholdMeansNoCritical | quality/evaluator/cli.py:553-558 | the guardrail threshold is met exactly when no critical rule matched |
| EvaluatorRules.SeverityNamesLower | quality/evaluator/cli.py:553-558 | the severity names are already lower case |
| EvaluatorRules.LowerKeeps | quality/evaluator/cli.py:555 | lower-case text is unchanged by `lower()` |
| EvaluatorRules.Summarize | quality/evaluator/cli.py:937-959 | a run passes exactly when the severity is not critical and one threshold is met; it needs review when it fails, a threshold is missed, or the severity is major or worse; a non-empty given time is kept, else the clock's |
| EvaluatorRules.DecisionMeaning | quality/evaluator/cli.py:542-559 | a run passes exactly when no critical rule matched and one threshold is met, and needs no review exactly when both thresholds are met and nothing above minor matched |
| EvaluatorRules.FailureNeedsReview | quality/evaluator/cli.py:949-954 | a failing run always needs review |
| PromSample.BackslashRun | scripts/perf/collect_metrics.py:65-69 | the count is exactly the run of backslashes immediately before the index: all of them are backslashes and the character before the run is not |
| PromSample.IsUnescapedQuote | scripts/perf/collect_metrics.py:62-70 | the backward counting loop answers true exactly when the character is a quote preceded by an even number of backslashes |
| PromSample.SkipSpaceBack | scripts/perf/collect_metrics.py:82-83 | the result is the last non-whitespace position at or before the cursor (or -1), with only whitespace after it |
| PromSample.SkipSpaceBackAt | scripts/perf/collect_metrics.py:80-83 | the first loop of `extract_token` stops where `SkipSpaceBack` says |
| PromSample.ScanBack | scripts/perf/collect_metrics.py:87-95 | the token scan never moves right, and when it stops inside the text it stands on whitespace outside quotes |
| PromSample.ScanBackAt | scripts/perf/collect_metrics.py:86-95 | the second loop of `extract_token` stops where `ScanBack` says, toggling the quote state on unescaped quotes only |
| PromSample.ExtractToken | scripts/perf/collect_metrics.py:79-98 | a token found is non-empty and the cursor it leaves lies strictly before the start index |
| PromSample.ExtractTokenAt | scripts/perf/collect_metrics.py:79-98 | the two loops of `extract_token` give `None` when only whitespace remains, otherwise the text between the scan's stop and the last non-whitespace position |
| PromSample.ScanResumes | scripts/perf/collect_metrics.py:87-95 | scanning a text with something in front of it runs as the scan of the text alone and resumes in the front part with the same quote state |
| PromSample.ScanExtend | scripts/perf/collect_metrics.py:87-95 | what follows the cursor never affects the backward scan |
| PromSample.PlainToken | scripts/perf/collect_metrics.py:79-98 | text without quotes, backslashes or whitespace is scanned as one whole token |
| PromSample.TokenAfterSpace | scripts/perf/collect_metrics.py:79-98 | in `a + " " + b` with `b` one token, the token extracted from the end is `b` and the cursor is left on the blank |
| PromSample.BlankSkipped | scripts/perf/collect_metrics.py:82-83 | trailing whitespace does not change the token extracted |
| PromSample.CrossedConcat | scripts/perf/collect_metrics.py:87-95 | two stretches the backward scan crosses outside quotes, the first not ending in a backslash, are crossed together |
| PromSample.EscapedRun | scripts/perf/collect_metrics.py:87-95 | inside quotes the scan crosses whitespace and escaped quotes without stopping |
| PromSample.QuotedCrossed | scripts/perf/collect_metrics.py:60-68 | `"v"` is crossed whole when every quote in `v` has an odd run of backslashes before it and `v` ends in an even run |
| PromLabelled.LabelCrossed | scripts/perf/collect_metrics.py:87-95 | `key="v"` with a bare key and such a value is crossed whole and ends in a quote |
| PromLabelled.LabelsCrossed | scripts/perf/collect_metrics.py:87-95 | a comma-joined list of such labels is crossed whole |
| PromLabelled.LabelledToken | scripts/perf/collect_metrics.py:79-98 | `name{k1="v1",k2="v2",...}` is one token whatever whitespace and escaped quotes its values hold |
| PromLabelled.ReadableQuoted | scripts/perf/collect_metrics.py:25 | every value the label pattern reads (escape pairs and characters other than a quote or a backslash) has the quote parity the scan needs |
| PromSample.PairParity | scripts/perf/collect_metrics.py:60-68 | an escape pair in front keeps the parity of every backslash run after it |
| PromSample.PairQuoted | scripts/perf/collect_metrics.py:25 | an escape pair (a backslash and any character) in front of a properly escaped value leaves it properly escaped |
| PromSample.PlainQuoted | scripts/perf/collect_metrics.py:25 | a character other than a quote or a backslash in front of a properly escaped value leaves it properly escaped |
| PromSample.SplitSample | scripts/perf/collect_metrics.py:73-127 | a blank or `#` line gives nothing; any sample found has a non-empty metric and value |
| PromSample.CutSample | scripts/perf/collect_metrics.py:100-104 | once the last token is cut, any sample assembled has a non-empty metric and value |
| PromSample.Assemble | scripts/perf/collect_metrics.py:105-127 | the three assembly branches give a sample with a non-empty metric and value, or nothing |
| PromSample.AssembleMetricOnly | scripts/perf/collect_metrics.py:106-111 | with only a metric token before the last token, the last token is the value and there is no timestamp |
| PromSample.AssembleMetricValue | scripts/perf/collect_metrics.py:113-124 | with a metric and a value token before the last token, the last token is the timestamp |
| PromSample.SplitAtLastToken | scripts/perf/collect_metrics.py:74-105 | for a stripped, uncommented line, the split is the assembly of the text before the last token |
| PromSample.SplitPrometheusSample | scripts/perf/collect_metrics.py:73-127 | the method, cutting tokens with the backward scanner, returns exactly `SplitSample(line)` |
| PromSample.TwoTokens | scripts/perf/collect_metrics.py:73-127 | `metric value` splits into that metric and value with no timestamp |
| PromSample.ThreeTokens | scripts/perf/collect_metrics.py:73-127 | `metric value timestamp` splits into its three tokens, in order |
| PromLabelled.QuotedSpaceKept | scripts/perf/collect_metrics.py:73-127 | `name{k1="v1",...} value`, with label values holding whitespace or escaped quotes, splits into that whole metric and the value, with no timestamp |
| PromLabelled.QuotedSpaceKeptStamped | scripts/perf/collect_metrics.py:73-127 | the same line with a timestamp token after the value splits into the whole metric, the value and the timestamp |
| PromLabels.WithoutEnvironmentMembers | scripts/perf/collect_metrics.py:53-59 | a label is kept exactly when it was in the input and its key is not one of the thirteen environment keys |
| PromLabels.WithoutEnvironmentConcat | scripts/perf/collect_metrics.py:53-59 | filtering distributes over concatenation, so the kept labels keep their order |
| PromLabels.WithoutEnvironmentKeeps | scripts/perf/collect_metrics.py:53-59 | a label list without environment keys is returned unchanged |
| PromLabels.FilterEnvironmentLabels | scripts/perf/collect_metrics.py:53-59 | the loop returns exactly `WithoutEnvironment(labels)` |
| PromLabels.Sanitize | scripts/perf/collect_metrics.py:45-46 | the result has the input's length, keeps every character of `[0-9A-Za-z_.-]` and puts `_` in place of every other character |
| PromLabels.SanitizeIdempotent | scripts/perf/collect_metrics.py:45-46 | sanitising a sanitised value changes nothing |
| PromLabels.LabelAt | scripts/perf/collect_metrics.py:25 | a match of the label pattern reads an identifier key and a value of escape pairs and non-quote characters, and moves forward |
| PromLabels.FindLabels | scripts/perf/collect_metrics.py:25 | every label `findall` returns has an identifier key and a well-formed value |
| PromLabels.FoundValuesBraceFree | scripts/perf/collect_metrics.py:194-196 | values read from a label section that holds `}` only at its end contain no `}` |
| PromLabels.LabelAtRendered | scripts/perf/collect_metrics.py:25 | a label written as `key="value"` is read back by the pattern as that label |
| PromLabels.RenderedLabelsRead | scripts/perf/collect_metrics.py:244-247 | a label list written as `{k="v",...}` is read back by `findall` as that list, in order |
| PromLabels.LabelTransitive | scripts/perf/collect_metrics.py:245 | the tuple order used by `sorted` on labels is transitive |
| PromLabels.LabelTotal | scripts/perf/collect_metrics.py:245 | the tuple order on labels is total |
| PromLabels.LabelAntisymmetric | scripts/perf/collect_metrics.py:245 | the tuple order on labels is antisymmetric |
| PromLabels.InsertLabel | scripts/perf/collect_metrics.py:245 | inserting into a sorted label list keeps it sorted and adds exactly one copy of the label |
| PromLabels.SortLabels | scripts/perf/collect_metrics.py:245 | `sorted(labels)` is ordered by key then value and is a permutation of its input |
| PromLabels.LabelsSortedUnique | scripts/perf/collect_metrics.py:245 | two sorted label lists with the same contents are equal, so the sorted output depends only on the labels |
| PromNames.LabelSection | scripts/perf/collect_metrics.py:194-196 | the label section runs from the first `{` to the first `}` after it and is empty exactly when there is no such pair |
| PromNames.BaseName | scripts/perf/collect_metrics.py:198-203 | the base is a prefix of the metric, and when the metric has `{` it is the text before the first `{` |
| PromNames.SplitQuantile | scripts/perf/collect_metrics.py:224-230 | at most one label is taken out and all others are kept |
| PromNames.SplitWithoutQuantile | scripts/perf/collect_metrics.py:224-230 | without a `quantile` label nothing is taken out and the labels keep their order |
| PromNames.SplitFirstQuantile | scripts/perf/collect_metrics.py:224-230 | the first `quantile` label is taken out; later `quantile` labels stay among the others, in order |
| PromNames.SplitQuantileLabels | scripts/perf/collect_metrics.py:224-230 | the loop computes `SplitQuantile(labels)` |
| PromNames.WithLabels | scripts/perf/collect_metrics.py:241-247 | with no labels the name alone; otherwise the name followed by the sorted labels written in braces |
| PromNames.Normalize | scripts/perf/collect_metrics.py:191-247 | a metric without a label section normalises to its base name |
| PromNames.NormalizePrometheusMetricName | scripts/perf/collect_metrics.py:191-247 | the method, trying each delimiter in turn and looping over the labels, returns exactly `Normalize(metric, preserveBucket)` |
| PromNames.QuantileBecomesSuffix | scripts/perf/collect_metrics.py:224-247 | outside the bucket case, the first `quantile` label becomes a `_quantile_<sanitised value>` suffix and the other non-environment labels stay, sorted |
| PromNames.CounterLosesLabels | scripts/perf/collect_metrics.py:235-239 | outside the bucket case, a `_total`, `_sum`, `_count` or `_timestamp` metric without a `quantile` label normalises to its bare base |
| PromNames.GaugeKeepsLabels | scripts/perf/collect_metrics.py:232-247 | outside the bucket case, any other metric keeps its non-environment labels, sorted |
| PromNames.WithLabelsReadBack | scripts/perf/collect_metrics.py:244-247 | a name written with labels reads back as that base name and those labels, sorted |
| PromNames.BucketNameStable | scripts/perf/collect_metrics.py:207-215 | with labels preserved for buckets, normalising a normalised bucket name changes nothing |
| PromCollect.SeriesBase | scripts/perf/collect_metrics.py:173 | the base is the longest prefix of the name without `{`, and stops right at the first `{` when there is one |
| PromCollect.Accept | scripts/perf/collect_metrics.py:151-164 | blank and `#` lines are never kept, and a kept sample's normalised name carries the prefix |
| PromCollect.Readings | scripts/perf/collect_metrics.py:151-164 | at most one sample per line is kept, each under a name carrying the prefix |
| PromCollect.ReadingsStep | scripts/perf/collect_metrics.py:151-164 | one more line adds its sample exactly when that line is accepted |
| PromCollect.AggregateStep | scripts/perf/collect_metrics.py:172-187 | one more sample is stored on top of the aggregation of the earlier ones |
| PromCollect.CollectPrometheusSamples | scripts/perf/collect_metrics.py:150-188 | the loop over the payload's lines returns exactly `Collected(lines, prefix)` |
| PromCollect.CollectLine | scripts/perf/collect_metrics.py:152-187 | a line that is not accepted leaves the results unchanged; an accepted one is stored |
| PromCollect.ReadLine | scripts/perf/collect_metrics.py:152-164 | splitting, normalising with buckets preserved, the prefix test and `float` give exactly `Accept(line, prefix)` |
| PromCollect.StoreReading | scripts/perf/collect_metrics.py:172-187 | a first occurrence is stored as is; a repeat takes the max for quantiles and timestamps, the sum for totals, sums, counts and buckets, and the new value otherwise |
| PromCollect.MaxOf | scripts/perf/collect_metrics.py:179-181 | the largest value is one of the values and no value exceeds it |
| PromCollect.ReduceStep | scripts/perf/collect_metrics.py:172-187 | folding one more sample into a series' reduction is the `max`/`+`/replace step of the loop |
| PromCollect.ReduceSingle | scripts/perf/collect_metrics.py:174-176 | a series seen once keeps its value whatever its kind |
| PromCollect.AggregateMeaning | scripts/perf/collect_metrics.py:172-187 | a series is in the results exactly when a kept sample belongs to it, and its value is the largest, the sum or the last of its samples, by its kind |
| PromCollect.SingleSample | scripts/perf/collect_metrics.py:174-176 | a series with a single kept sample is collected with that sample's value |
| PromCollect.CollectedPrefixed | scripts/perf/collect_metrics.py:159-160 | every collected series carries the prefix |
| PromCollect.Headed | scripts/perf/collect_metrics.py:296-302 | an entry is produced exactly when the key is present and not null and the record has `value`, and it pairs that key's value with `value` |
| PromCollect.Nested | scripts/perf/collect_metrics.py:304-306 | when `metrics` is an object, one entry per item in order; nothing otherwise |
| PromCollect.MetricEntries | scripts/perf/collect_metrics.py:291-308 | a record that is not an object gives nothing; without `value` only the `metrics` items are given |
| PromCollect.MetricLeads | scripts/perf/collect_metrics.py:296-298 | a non-null `metric` with a `value` gives the first entry |
| PromCollect.NameFollows | scripts/perf/collect_metrics.py:300-302 | a non-null `name` with a `value` comes right after the `metric` entry, if there is one |
| PromCollect.NestedCloses | scripts/perf/collect_metrics.py:304-306 | the `metrics` items end the list, in their order |
| PromCollect.Absorb | scripts/perf/collect_metrics.py:343-346 | one source is merged: keys already present keep their value and new keys are copied |
| PromCollect.FirstHolder | scripts/perf/collect_metrics.py:342-346 | the index of the first source holding the key, or -1 exactly when none does |
| PromCollect.MergedMeaning | scripts/perf/collect_metrics.py:340-347 | the merge holds exactly the keys of the sources, each with the value of the first source that has it |
| PromCollect.MergeTwo | scripts/perf/collect_metrics.py:359 | with two sources the first wins on shared keys, and disjoint sources are simply united |
| PromCollect.MergeMetrics | scripts/perf/collect_metrics.py:340-347 | the loop over the sources returns exactly `Merged(sources)` |
| PromCollect.MergeSource | scripts/perf/collect_metrics.py:343-346 | the loop over one source's items returns exactly `Absorb(merged, source)` |
| PromCollect.RequiredMetricNames | scripts/perf/collect_metrics.py:49-50 | one name per required suffix, each the prefix followed by that suffix, in order |
| PromCollect.Absent | scripts/perf/collect_metrics.py:361 | a name is listed exactly when it is one of the names and not in the merge |
| PromCollect.Missing | scripts/perf/collect_metrics.py:360-361 | a name is missing exactly when it is required and not in the merge |
| PromCollect.MissingMeaning | scripts/perf/collect_metrics.py:360-377 | nothing is missing, so the collector succeeds, exactly when every prefixed required name is in the merge |
| Analyze.CoerceBool | workflow-cookbook/scripts/analyze.py:22-29 | booleans are kept; a string gives true or false exactly when, trimmed and lower-cased, it is `true` or `false`; anything else gives nothing |
| Analyze.Indent | workflow-cookbook/scripts/analyze.py:39 | the indent counts exactly the leading blanks of the line |
| Analyze.AfterColon | workflow-cookbook/scripts/analyze.py:47 | the text after the first colon: the line is the colon-free part, the colon and the result |
| Analyze.Unquoted | workflow-cookbook/scripts/analyze.py:48-49 | removing matching outer quotes only shortens the value and adds no character |
| Analyze.CleanValue | workflow-cookbook/scripts/analyze.py:47-50 | a value found is non-empty and holds no `#` |
| Analyze.CleanPlain | workflow-cookbook/scripts/analyze.py:47-50 | an unquoted value is read back as written, with or without a trailing `#` comment |
| Analyze.CleanQuoted | workflow-cookbook/scripts/analyze.py:48-49 | a quoted value is read back without its quotes |
| Analyze.Scan | workflow-cookbook/scripts/analyze.py:35-51 | a value found is non-empty and holds no `#` |
| Analyze.FallbackReadSectionValue | workflow-cookbook/scripts/analyze.py:32-51 | the line loop, with its `in_section` and `section_indent` state, returns exactly `SectionValue(text, section, key)` |
| Analyze.NoHeaderNoValue | workflow-cookbook/scripts/analyze.py:40-46 | without an unindented `section:` line nothing is read |
| Analyze.SectionClosed | workflow-cookbook/scripts/analyze.py:44-45 | an unindented line that is not the header closes the section |
| Analyze.HeaderOpens | workflow-cookbook/scripts/analyze.py:40-43 | the unindented `section:` line opens the section |
| Analyze.KeyLineAnswers | workflow-cookbook/scripts/analyze.py:46-50 | inside the section, an indented `key:` line gives the answer, whatever follows it |
| Analyze.ReadsWrittenEntry | workflow-cookbook/scripts/analyze.py:32-51 | a header followed by an indented `key: value` line yields the value |
| Analyze.ReadSectionBool | workflow-cookbook/scripts/analyze.py:54-61 | the default when no value is found or it is not a boolean word, otherwise the boolean it names |
| Analyze.FallbackManifest | workflow-cookbook/scripts/analyze.py:72-89 | the manifest always has boolean `actions.suggest_issues` and `report.include_why_why`, and `report.output` exactly when a value is found for it |
| Analyze.ManifestBool | workflow-cookbook/scripts/analyze.py:122-171 | an empty manifest gives the default; otherwise the section's boolean value when it coerces, the default when it does not |
| Analyze.FallbackLoadsBack | workflow-cookbook/scripts/analyze.py:122-171 | the booleans loaded from the line reader's manifest are what the line reader found |
| Analyze.JoinPath | workflow-cookbook/scripts/analyze.py:199-205 | `base / other` is `other` when it is absolute and the base's parts followed by its parts otherwise |
| Analyze.Candidate | workflow-cookbook/scripts/analyze.py:190-200 | with an absolute base, a candidate output path is absolute |
| Analyze.LoadReportOutputPath | workflow-cookbook/scripts/analyze.py:174-206 | the result is absolute when the base is; without a candidate, the fallback; a candidate naming the default report when a different fallback was given, the fallback; otherwise the candidate |
| Analyze.RelativeOutput | workflow-cookbook/scripts/analyze.py:195-206 | a relative `report.output` lands under the base directory |
| Analyze.FlakyTests | workflow-cookbook/scripts/analyze.py:258 | a test is flaky exactly when its recorded statuses include both `pass` and `fail` |
| Analyze.FlakyRate | workflow-cookbook/scripts/analyze.py:257-262 | the rate lies in [0,1]; it is 0 exactly when no test is flaky and 1 exactly when every test is |
| Text.Strip | workflow-cookbook/scripts/analyze.py:36 | `str.strip()` leaves no whitespace at either end and never lengthens the text |
| Text.StripEmpty | workflow-cookbook/scripts/analyze.py:36-37 | a stripped line is empty exactly when every character was whitespace |
| Text.Split | scripts/birdseye_refresh.py:37 | `str.split(sep)` gives pieces without the separator that join back to the text |
| Text.SplitJoin | scripts/birdseye_refresh.py:37 | splitting a separator-joined list of separator-free pieces gives the pieces back |
| Text.ParseIntOfIntToString | workflow-cookbook/tools/context/pack.py:212 | `int(str(n))` gives back `n` for every natural number |
| Text.ParseFloatDecimal | workflow-cookbook/tools/context/pack.py:211 | `float(w + "." + f)` for digit strings is the integer of all the digits scaled down by one power of ten per fraction digit |
| Paths.FromString | workflow-cookbook/tools/context/pack.py:118 | a parsed path is well formed: its anchor is empty, `/` or `//` and every part is a non-empty name other than `.` |
| Paths.Parent | workflow-cookbook/tools/context/pack.py:118 | the parent drops the last part and keeps the anchor, and a path without parts is its own parent |
| Paths.ParsePrintRoundTrip | workflow-cookbook/tools/context/pack.py:118 | printing a well-formed path and parsing the text gives the same path |
| Ordering.Transitive | workflow-cookbook/tools/codemap/update.py:166-168 | Python's string order is transitive |
| Ordering.Total | workflow-cookbook/tools/codemap/update.py:166-168 | Python's string order is total |
| Ordering.Sort | workflow-cookbook/tools/codemap/update.py:166-168 | `list.sort()` gives a non-decreasing permutation of its input |
| Ordering.SortedUnique | workflow-cookbook/tools/codemap/update.py:166-168 | a sorted list is determined by its contents, so the sorted adjacency depends only on the edges |

## Left out

- Text.Lower: only ASCII letters are folded. Python's `str.lower` also folds other scripts, so the model differs on non-ASCII text. For example, the intent `İ` tokenises to `i` in `_tokenize` (pack.py:86-87) but to nothing in the model, and the budget `1K` written with the Kelvin sign is refused in `_parse_budget` (pack.py:209) although Python reads it as 1000. The same folding is used by `_coerce_bool` (analyze.py:26).
- Text.ParseInt: refuses underscore separators (`1_000`) and non-ASCII digits, which Python's `int` accepts, so `_parse_budget("1_000")` gives no budget in the model.
- Text.ParseFloat: decimal text is read as an exact real. Python's `float` also accepts underscores (`1_0`), `inf` and `nan`, and overflows to infinity, so the `math.isfinite` skip of `collect_prometheus_metrics` (collect_metrics.py:165-171) never fires here: `1e400` is stored instead of skipped.
- PromCollect.Accept: the `max` and `+` of the aggregation fold (collect_metrics.py:179-185) are exact on reals, not IEEE double arithmetic, for the same reason.
- EvaluatorText.CodePoint: `chr` accepts the surrogate code points U+D800 to U+DFFF, which no Dafny `char` can hold. A `\uD800` escape therefore makes the whole decode an error here, while Python decodes it (cli.py:82).
- EvaluatorRules.ExtractContains: a `match.any`/`match.all` value that is neither a list, a string nor a mapping (e.g. `5`) makes Python raise `TypeError` while iterating (cli.py:880). The model yields no values, so the rule does not match.
- Codemap.LoadObject: `dict(_load_json(...))` (update.py:131, 152, 173) turns a JSON list of pairs, such as `[]`, into a dict and carries on, and raises `ValueError`/`TypeError` for other non-objects. The model reports every non-object as the same load failure.
- ContextPack.GeneratePack: a node without an `id` key makes Python raise `KeyError` (`str(node["id"])` in `_hub_scores`, pack.py:139). The model requires every node to carry an id and does not model that error.
- ContextPack.ScoreNodes: the same precondition; the error it excludes is the `KeyError` of `_hub_scores` (pack.py:139) and of `_candidate_neighbourhood` (pack.py:187).
- ContextPack.RankCandidates: the same precondition, for the `KeyError` of `_candidate_neighbourhood` (pack.py:187).
- Ppr.PersonalizeScores: the same precondition, for the `KeyError` of the `id_to_index` comprehension (ppr.py:18).
- Json.Get: reads the first binding of a key that an object repeats, while a dict decoded by Python's `json` keeps the last one. The model agrees with the source on objects whose keys are distinct.
- Floating point in general: every score, rank and rate is an exact `real`. IEEE rounding, the convergence of the power iteration, and the `%` formatting of rates in reports are not modelled.
- `_recency_score` (`exp`, `datetime.now`) and `_hub_scores` (`log1p`) are inputs to the model: per-node recency and hub values in [0,1].
- `ppr_entropy` (`math.log`) in the pack metrics, `_mean`, and the p95 duration (`statistics.quantiles`) are not modelled.
- ContextPack.ParseBudget: a decimal before `k` is read by `Text.ParseFloat` as an exact real and multiplied by 1000 exactly, not in IEEE doubles as `int(float(cleaned[:-1]) * 1000)` does (pack.py:211). So `1.005k` gives 1005 here, while Python gives 1004.
- ContextPack.DupRate: the distinct paths are counted under JSON value equality. Python's set in `dup_rate` (pack.py:308-312) merges `1`, `1.0` and `True` as one path and raises `TypeError` on a list or object path, so the model agrees with the source when every selected node's path is a string or absent.
- The order among candidates with equal combined scores comes from a Python `set` and is unspecified in the model too. Only the order by score is stated.
- File and network I/O: reading the graph, configuration, manifest, logs and JSON files; writing the pack and reports; `urlopen` of the Prometheus endpoint; the `git diff` subprocess; `glob` listings; clocks (`_iso_utc_now`, `datetime.now`). Each becomes a parameter (a map of file texts, a list of lines, a listing, a timestamp) or is left out.
- The JSON and YAML codecs (`json.loads`/`json.dumps`, PyYAML's `safe_load`, `_load_ruleset`) are parameters or already-decoded values. `str()` of lists and dicts approximates `repr` without escaping inside strings.
- `PurePosixPath.match` is an uninterpreted predicate. The regular expressions used only for warnings in the gate's pull-request body checks (`INTENT_PATTERN`, `_normalize_markdown_emphasis`, `_has_priority_with_justification`) are not modelled. `validate_pr_body` returns true on every input, and the model states that.
- The gate's `main` (git, environment, file reads), `read_event_body` and `resolve_pr_body` are not modelled. Their inputs are the parameters of the modelled functions.
- The wrapper's module loading and attribute proxying (`_load_legacy_module`, `__getattr__`, `_synchronize_proxy_attributes`) are not modelled.
- `collect_chainlit_metrics`' file loop and line decoding, and `collect_metrics`' `main` output and argument parsing, are not modelled. `_iter_metric_entries`, the merge and the missing-metric check are modelled.
- The evaluator's semantic and surface scoring (BERTScore, ROUGE, tokenizers), `_load_records`, `_parse_loose_mapping` (`ast.literal_eval` plus regex) and the parts of `_parse_rules_yaml` beyond the modelled scalar helpers are not modelled.
- The analyzer's `main` (log reading, report and issue file writing) is not modelled. Its flaky-rate formula and the manifest lookups it uses are modelled.
- Concurrency: none of the modelled code is concurrent.

# PN-MCTS with MAST n-gram playouts, in Dafny

This project models the search-and-statistics core of the `PNSMCTS_MAST` game-playing
agent. The agent combines three pieces:

- Monte Carlo Tree Search in which every node also carries proof and disproof numbers
  (Proof-Number Search, after L. V. Allis).
- A UCT-PN selection rule that mixes the usual UCT value with the rank of each child's
  proof or disproof number among its siblings.
- Playouts guided by the Move-Average Sampling Technique (MAST) over n-grams of moves.
  Each n-gram keeps a visit-weighted mean of the utilities of the playouts it occurred
  in. A move scores the sum of the means of the n-grams that end with it. The playout
  plays the best-scoring move, except on an ε-exploration draw.

The model is functional:

- The tree is an immutable `Node` value. The engine's list of not-yet-visited children
  becomes a sequence of indices into the children.
- Proof numbers are `ExtNat = Fin(nat) | Inf`.
- Scores are `real`.
- The n-gram tables are sequences of entries in insertion order.

The game enters as a record of total functions: legal moves, apply, terminal test,
mover, utilities, and the two flags `supportsGame` inspects (`Games.SupportsGame`).

Everything random or time-dependent is a parameter:

- the tie-breaking and pending-child draws (`coin`);
- the ε-branch of the playout (`Draws`);
- the UCT-PN value, which uses `log` and `sqrt`;
- the number of iterations, which stands in for the wall-clock deadline.

Where the engine would throw or dereference `null`, the model returns `None`:

- `select` with every child pruned;
- `developNode` on a non-terminal state without legal moves;
- `finalMoveSelection` on a root without children;
- a mover outside the utility vector.

Modules, in dependency order:

- `Wrappers`: `Option`.
- `ExtNats`: extended naturals with sum and minimum.
- `Games`: the game interface.
- `ProofNumbers`: node kinds, leaf evaluation, the AND/OR rule and sibling ranks.
- `ArgMax`: the set of maximal positions.
- `Nodes`: construction, refresh, ranking, development and selection on one node.
- `Search`: descent, backpropagation, iterations, final move choice and `selectAction`.
- `NGrams`: n-gram extraction from a playout history.
- `Mast`: the n-gram store, the merge and the per-move aggregate.
- `Playouts`: move score, greedy pick and the playout.
- `Engine`: configuration, the agent, and the search environment with the MAST playout
  plugged in.

## Model

All source paths are in `src/mcts/PNSMCTS_MAST.java`.

| member | source | states |
|---|---|---|
| ExtNats.Sum | src/mcts/PNSMCTS_MAST.java:599-602 | The children's proof sum, started at 0, is 0 exactly when every term is 0, and infinite exactly when some term is infinite. |
| ExtNats.MinOf | src/mcts/PNSMCTS_MAST.java:603-608 | The running minimum started at +∞ is a lower bound that some child attains. It is 0 exactly when some child has 0, and infinite exactly when every child is infinite, which includes having no children. |
| ProofNumbers.LeafNumbers | src/mcts/PNSMCTS_MAST.java:637-649 | An unexpanded node has proof number 0 exactly when TRUE and disproof number 0 exactly when FALSE. UNKNOWN gives (1, 1). A solved leaf has an infinite number on the other side. |
| ProofNumbers.CombineSolved | src/mcts/PNSMCTS_MAST.java:597-636 | An expanded OR node is proven iff some child is proven; an AND node iff every child is. An AND node is disproven iff some child is disproven; an OR node iff every child is. The same holds dually for infinite numbers. |
| ProofNumbers.Compare | src/mcts/PNSMCTS_MAST.java:730-749 | `compareTo` returns -1, 0 or 1 as the proof numbers (OR parent) or disproof numbers (AND parent) compare. |
| ProofNumbers.Ranks | src/mcts/PNSMCTS_MAST.java:681-698 | A rank is 1 plus the number of siblings with a strictly smaller key. So ranks lie in 1..n, equal keys share a rank, a smaller key gets a strictly smaller rank, and a minimal key gets rank 1. |
| ProofNumbers.ScanAgreesWithRanks | src/mcts/PNSMCTS_MAST.java:681-698 | The engine's sort-then-scan loop gives each sorted child exactly that rank, whatever order the sort leaves tied children in. |
| Nodes.NewNode | src/mcts/PNSMCTS_MAST.java:547-586 | A new node is OR iff its mover is the proof player. It is TRUE iff terminal with the proof player's utility exactly 1.0, FALSE iff terminal otherwise, and UNKNOWN iff not terminal. It takes the matching leaf numbers, has no visits, zero score sums, and a snapshot of the legal moves. |
| Nodes.Refresh | src/mcts/PNSMCTS_MAST.java:595-652 | An expanded node takes the AND/OR combination of its children; an unexpanded node takes its leaf numbers. The result is false exactly when the node is expanded and both numbers were already equal to the recomputed ones. Nothing else changes. |
| Nodes.SetChildRanks | src/mcts/PNSMCTS_MAST.java:681-698 | Child i gets rank `Ranks(keys)[i]`. The children are otherwise unchanged, and so are their proof and disproof numbers. |
| Nodes.Develop | src/mcts/PNSMCTS_MAST.java:659-675 | On an UNKNOWN node one new child per remaining legal move is appended, in order, and added to the pending list. The node becomes expanded. One pending child is handed out and taken off the list. With nothing pending the result is None. A solved node is only marked expanded and hands out itself. |
| Nodes.DevelopFresh | src/mcts/PNSMCTS_MAST.java:659-670 | On a first expansion the child handed out is brand new: no visits, not expanded, and reached by one of the node's legal moves. |
| Nodes.SelectExpanded | src/mcts/PNSMCTS_MAST.java:329-374 | A pending child is handed out (and removed) while any remain. After that, the result is a non-pruned child of maximal value. It is None iff every child is pruned, where pruned means a solved child with more than `minVisits` visits under an unsolved node. |
| Nodes.Credit | src/mcts/PNSMCTS_MAST.java:274-277 | A node on the path gets one more visit, and `scoreSums[p] += u[p]` for p in 1..players. Index 0 is untouched. |
| Search.Descend | src/mcts/PNSMCTS_MAST.java:186-203 | The traversal stops at a terminal node or at a node with no visits, along a followable path. Only children, pending lists and expanded flags change. A first expansion of the root creates one child per legal move, and it fails exactly when a non-terminal root has no legal moves. |
| Search.DescendKeepsNodes | src/mcts/PNSMCTS_MAST.java:186-203 | At every depth, not only at the root, each node that existed before the traversal is still reached by the same path. It keeps its visits, score sums, proof numbers, state and move; only children, pending lists and expanded flags change. |
| Search.Lift | src/mcts/PNSMCTS_MAST.java:273-289 | One backpropagation step above the first node: visit and scores added. When the flag from below is set, the numbers are the AND/OR combination. A cleared flag keeps the numbers, and once cleared the flag stays cleared. The other children are unchanged up to ranks. |
| Search.Backprop | src/mcts/PNSMCTS_MAST.java:271-290 | The root gets one visit and the utilities. The flag at the leaf is always set, and a cleared flag keeps the root's numbers. Siblings off the path are unchanged up to ranks. |
| Search.BackpropAlongPath | src/mcts/PNSMCTS_MAST.java:271-290 | Every node on the path gets exactly one more visit and the utilities added. A node whose flag is false keeps its numbers. A false flag at one level forces false at every level above. |
| Search.BackpropLeaf | src/mcts/PNSMCTS_MAST.java:271-277 | The node at the end of the path gets one more visit and the utilities, and keeps its proof and disproof numbers. It is otherwise unchanged up to its rank. |
| Search.BackpropOffPath | src/mcts/PNSMCTS_MAST.java:271-290 | At every depth above the leaf, the node keeps its number of children, and every child off the path is unchanged up to its rank. When the flag from below is set and the node is expanded, its numbers are the AND/OR combination of its children. |
| Search.BackpropWF | src/mcts/PNSMCTS_MAST.java:271-290 | Backpropagation keeps the tree's shape invariants, and the path stays followable. |
| Search.Iterate | src/mcts/PNSMCTS_MAST.java:186-302 | An iteration adds exactly one visit to the root and never removes children. A completed iteration from a non-terminal, unexpanded, unsolved root leaves it with children. At a terminal root it only credits the root with the terminal utilities. |
| Search.Iterations | src/mcts/PNSMCTS_MAST.java:177-303 | After k completed iterations the root has exactly k more visits. |
| Search.TerminalRootStays | src/mcts/PNSMCTS_MAST.java:188-192 | Iterations from a terminal root never give it children. |
| Search.IterationsKeep | src/mcts/PNSMCTS_MAST.java:204-268 | Any property of the playout context (the n-gram store) that every playout preserves holds after the iterations. |
| Search.FinalChoice | src/mcts/PNSMCTS_MAST.java:384-419 | The result is None iff the root has no children. Otherwise it is a child of maximal visit count. When FIN_MOVE_SEL is set, the root's proof number is 0 and some child is proven, it is the first proven child instead. |
| Search.SelectAction | src/mcts/PNSMCTS_MAST.java:158-313 | The move returned is legal in the given state. A terminal state or zero iterations yields no move. For a non-terminal state and at least one iteration, a move is returned exactly when all the iterations complete. |
| Search.SelectActionKeeps | src/mcts/PNSMCTS_MAST.java:158-313 | The store handed back by a search keeps any property that every playout keeps. |
| NGrams.Gram | src/mcts/PNSMCTS_MAST.java:1013-1020 | The n-gram ending at index e is the n moves `h[e-n+1..e]`, in order. |
| NGrams.GramsAt | src/mcts/PNSMCTS_MAST.java:984-1035 | The grams counted at index e, for the mover there, are distinct. A gram is among them iff it is the 1-gram at e, or an n-gram ending at e with 2 ≤ n ≤ min(N, e+1) whose element at offset i is by that mover exactly when i ≡ n−1 (mod 2). |
| NGrams.Bump | src/mcts/PNSMCTS_MAST.java:994 | `merge(key, 1, Integer::sum)` adds one to the count of that (player, gram) and leaves every other count unchanged. Keys keep first-occurrence order. |
| NGrams.TallyCounts | src/mcts/PNSMCTS_MAST.java:983-1037 | After the first m history positions, each (player, gram) count equals the number of end indices below m at which that gram was counted for that player. |
| NGrams.ExtractCounts | src/mcts/PNSMCTS_MAST.java:983-1037 | In the full tally, each (player, gram) count equals the number of history positions at which it was counted. |
| NGrams.ExtractEntries | src/mcts/PNSMCTS_MAST.java:983-1037 | Every tallied gram has length 1..N, and its player moved somewhere in the history. |
| NGrams.SumCountsIsCount | src/mcts/PNSMCTS_MAST.java:1044-1073 | Summing a player's counts for a gram over the tally gives its count, because each (player, gram) appears once. |
| Mast.EmptyStore | src/mcts/PNSMCTS_MAST.java:50-53 | A fresh store satisfies the aggregate consistency and score bounds. |
| Mast.Merge | src/mcts/PNSMCTS_MAST.java:1086-1091 | The merged score times the new visit count equals the old score times the old visits plus utility times occurrences. |
| Mast.MergeBounded | src/mcts/PNSMCTS_MAST.java:1086-1091 | A merge of a score in [-1, 1] with a utility in [-1, 1] stays in [-1, 1]. |
| Mast.MergeCommutes | src/mcts/PNSMCTS_MAST.java:1086-1091 | Merging two batches in either order gives the same score. |
| Mast.Aggregate | src/mcts/PNSMCTS_MAST.java:1153-1166 | The loop over the first n grams yields the sum of the scores of the grams that count for the move (visited, and 1-gram or at least 7 visits). The count is positive iff such a gram exists. |
| Mast.UpdateMoveStats | src/mcts/PNSMCTS_MAST.java:1146-1173 | When some gram counts for the move, its aggregate becomes that sum and its usage counter goes up by one. Otherwise nothing changes. |
| Mast.Merged | src/mcts/PNSMCTS_MAST.java:1082-1091 | The gram's new entry has the old visits plus the occurrences. Its score times visits is the old score times visits (0 when absent) plus utility times occurrences. |
| Mast.PutEntry | src/mcts/PNSMCTS_MAST.java:1094-1095 | The entry replaces the gram's entry, or is appended when the gram is new. Grams stay unique. |
| Mast.MergeIntoSide | src/mcts/PNSMCTS_MAST.java:1074-1098 | The gram's visits grow by the occurrences and its last-seen stamp is set. Every other gram's visits are unchanged. |
| Mast.MergeIntoSideVisits | src/mcts/PNSMCTS_MAST.java:1086-1095 | One merge adds exactly the occurrences to a side's total visits. |
| Mast.MergeIntoSideMass | src/mcts/PNSMCTS_MAST.java:1086-1095 | One merge adds exactly utility times occurrences to a side's total of score times visits. |
| Mast.MergeIntoSideConsistent | src/mcts/PNSMCTS_MAST.java:1094-1098 | After a merge, a move has an aggregate exactly when some gram counts for it, and that aggregate is the sum of those grams' scores. |
| Mast.MergeIntoSideBounded | src/mcts/PNSMCTS_MAST.java:1086-1094 | A merge keeps every score in [-1, 1] when the utility is. |
| Mast.MergeGram | src/mcts/PNSMCTS_MAST.java:1045-1098 | The gram goes to the agent's tables when the player is the agent, else to the opponent's. The other side is untouched. The additions counter grows by one exactly when the gram is new. |
| Mast.MergeAllInvariant | src/mcts/PNSMCTS_MAST.java:1044-1106 | Merging a whole tally keeps unique grams, consistent aggregates and bounded scores. |
| Mast.MergeAllVisits | src/mcts/PNSMCTS_MAST.java:1044-1106 | Merging a tally adds the sum of its counts to the store's total visits. |
| Mast.MergeAllMass | src/mcts/PNSMCTS_MAST.java:1044-1106 | Merging a tally adds the sum of count × utility to the store's total of score times visits. |
| Mast.MergeAllOwnVisits | src/mcts/PNSMCTS_MAST.java:1044-1106 | On the agent's side, each gram gains exactly the counts the tally holds for the agent and that gram. |
| Mast.UpdateNGramStats | src/mcts/PNSMCTS_MAST.java:955-1108 | An empty history leaves the store unchanged. Otherwise the simulation counter goes up by one and gram uniqueness is kept. |
| Mast.UpdateIsMergeAll | src/mcts/PNSMCTS_MAST.java:973-1106 | A non-empty update is the extraction followed by merging every tally entry, with the counter advanced. |
| Mast.OwnVisitsAfterUpdate | src/mcts/PNSMCTS_MAST.java:955-1108 | After a playout, each of the agent's grams has gained exactly the number of history positions at which it was counted for the agent. |
| Mast.UpdateKeepsInvariant | src/mcts/PNSMCTS_MAST.java:955-1108 | With utilities in [-1, 1], an update keeps the store invariant. |
| Playouts.GetMoveScore | src/mcts/PNSMCTS_MAST.java:943-950 | A move without an aggregate scores 100.0. On a consistent side the score is the sum of the counting grams' scores when some gram counts for the move, and 100.0 otherwise. |
| Playouts.FirstBestUpTo | src/mcts/PNSMCTS_MAST.java:909-925 | After n scores, the scan that replaces only on a strictly greater score holds the first maximal index among them. |
| Playouts.FirstBestIsFirstArgMax | src/mcts/PNSMCTS_MAST.java:909-925 | The greedy scan's index is the smallest element of the set of maximal positions. |
| Playouts.SelectMoveByMAST | src/mcts/PNSMCTS_MAST.java:885-932 | No move iff there are no legal moves. Otherwise the result is legal. On an exploration draw it is the drawn legal move. Otherwise it is the first legal move of maximal score. |
| Playouts.UnseenPicksFirst | src/mcts/PNSMCTS_MAST.java:909-950 | When no legal move has an aggregate, all score 100.0 and the greedy pick is the first legal move. |
| Playouts.Play | src/mcts/PNSMCTS_MAST.java:214-243 | The playout ends in a terminal state or one without legal moves. The history is a legal line of play from the leaf to that state, with each move recorded with the player to move. |
| Playouts.Rollout | src/mcts/PNSMCTS_MAST.java:205-258 | The utilities returned are those of the state a legal line of play reaches. The new store is the n-gram update of the old one with that line and those utilities. |
| Playouts.RolloutKeepsInvariant | src/mcts/PNSMCTS_MAST.java:250-256 | With utilities in [-1, 1], a playout keeps the store invariant. |
| Playouts.RolloutCounts | src/mcts/PNSMCTS_MAST.java:250-256 | A playout from a state with legal moves records at least one move, so it counts one more simulation. |
| Games.SupportsGame | src/mcts/PNSMCTS_MAST.java:428-436 | Stochastic games are refused, then games whose players do not alternate. Every other game is accepted. |
| Engine.ClampNGramSize | src/mcts/PNSMCTS_MAST.java:140 | The n-gram length lies in 1..3, and lengths already in range are kept. |
| Engine.DefaultConfig | src/mcts/PNSMCTS_MAST.java:17-18 | The defaults are 1-grams, no final-move override, and a pruning threshold of 2^31 − 1. |
| Engine.MakeConfig | src/mcts/PNSMCTS_MAST.java:138-145 | The configuring constructor keeps its flags and clamps the n-gram length. |
| Engine.NewAgent | src/mcts/PNSMCTS_MAST.java:26-53 | A constructed agent has player index -1, its configuration's n-gram length, empty n-gram tables for both sides, zero simulation and addition counters, and a store that satisfies the invariant. |
| Engine.InitAI | src/mcts/PNSMCTS_MAST.java:422-424 | `initAI` sets the player and nothing else: configuration, tables and counters are kept. |
| Engine.InitAIKeepsInvariant | src/mcts/PNSMCTS_MAST.java:422-424 | Setting the player keeps the store invariant. |
| Engine.InitFreshAgent | src/mcts/PNSMCTS_MAST.java:26-53 | A constructed agent after `initAI` has the given player, empty tables, zero counters and a store that satisfies the invariant. |
| Engine.MastEnv | src/mcts/PNSMCTS_MAST.java:171 | The proof player is the agent's player, and the playout is the MAST rollout. |
| Engine.MastEnvValid | src/mcts/PNSMCTS_MAST.java:171-268 | With well-formed utilities, the environment is one the search accepts: every playout returns one utility per player. |
| Engine.ChooseMove | src/mcts/PNSMCTS_MAST.java:158-313 | For a game `supportsGame` accepts, the chosen move is legal. The agent keeps its configuration and player. A terminal state or zero iterations gives no move. Otherwise a move is returned exactly when all the iterations complete. |
| Engine.ChooseMoveKeepsInvariant | src/mcts/PNSMCTS_MAST.java:158-313 | With utilities in [-1, 1], the agent's n-gram store keeps its invariant across a whole search. |

## Left out

- Wall-clock deadline and `wantsInterrupt`: the main loop runs a given number of iterations instead.
- UCT-PN formula: it uses `Math.log` and `Math.sqrt` on doubles, so it is an abstract value function of (parent, child).
- Randomness: every random draw is an oracle parameter. This covers the pending-child draw, the tie-breaks in `select` and `finalMoveSelection`, the ε-test with `EPSILON = 0.2`, and the random legal move. The model states which set each result lies in.
- Decay: `applySimulationDecay` and `applyMoveDecay` run only when `doDecay` holds, which is the constant `false`.
- Debug output: printing, the `sims`/`simsThisTurn`/`turns` counters, `statsLock`, and `resetNGramStats`/`cleanup`, whose bodies are commented out.
- `opponentPlaysRandomly`: it has no setter and is always false, so the random-opponent branch of the playout is not modelled.
- Integer overflow: Java `int` visit counts and counters are unbounded naturals here.
- Floating point: proof numbers are exact extended naturals and scores are exact reals.
- Java `HashMap` iteration order: the tally, and the n-gram tables, are visited in first-occurrence order. Only the usage counters `moveVisits` can depend on this order. The scores, visits and aggregates do not, as `Mast.MergeCommutes` and the consistency invariant show.
- Playouts.Play: each playout step consumes one unit of a `fuel` parameter, and a playout that runs out yields `None`. Games whose playouts do not terminate within the fuel are not modelled.
- Exceptions: when the engine would throw, the model returns `None`. This covers a non-terminal state without legal moves in `developNode`, `select` returning `null`, `finalMoveSelection` with no children, and a player index outside the utility vector.
- Static options: `FIN_MOVE_SEL`, `SOLVERLIKE_MINVISITS` and `settings` are static fields that every instance shares. The model keeps them in each agent's `Config` or passes them as parameters.
- Reused states: the engine's `Context` copies, and the move history kept as a field and cleared after each playout, become values passed along.
- Search.Descend: the first-expansion child count is stated for the root only. Deeper levels are covered by `Search.DescendKeepsNodes` and the shape invariants.
- The tournament runner in `src/experiments` and the GUI launcher in `src/main` are not part of this model.

# htmf in Dafny

A model of the engine and the deterministic parts of the bots of **htmf**
("Hey, That's My Fish!"), a board game for two to four players.

The board has 60 hexagonal ice floes, laid out in 8 rows that alternate
between 7 and 8 cells. Each floe holds one, two or three fish.

- **Draft.** The players take turns placing penguins on unclaimed one-fish
  floes. The order is 0, 1, 1, 0, … for two players.
- **Movement.** Each penguin slides any distance in a straight line across
  unclaimed floes. The floe it lands on becomes its player's.
- **End game.** A penguin that cannot move is retired. When a penguin is
  alone on an iceberg (a connected group of unclaimed floes) that it cannot
  leave, the engine claims the whole iceberg for it along one path.
- **Score.** A player's score is the fish on the floes they claimed.

Every module below is one part of the engine or the bots.

| module | file | models |
|---|---|---|
| `Bits` | bits.dfy | the `u64` word behind a cell set, and its bit operations |
| `CellSets` | cellset.dfy | `CellSet` (engine/src/cellset.rs): a set of cells in the bits of a word, with its iterator as a class |
| `Hex` | hex.dfy | even-r offset and cube coordinates, neighbours, and the `line` iterator as a class |
| `BoardGeometry` | geometry.dfy | cell index ⇄ coordinates, bounds, and neighbours on the board |
| `BoardLines` | lines.dfy | closed forms for lines, so that a ray leaves the board within 8 steps |
| `Boards` | board.dfy | the board record: claiming cells, fish and scores |
| `BoardMoves` | moves.dfy | the cells a penguin can slide to, `is_legal_move` as written and corrected, and `move_penguin` |
| `Components` | components.dfy | icebergs: the flood fill `component` and `connected_components` |
| `CutCells` | cutcell.dfy | `is_cut_cell` as written, and corrected to count round the ring of six directions |
| `Endgame` | endgame.dfy | `reap`, `fill` and `prune` |
| `Games` | game.dfy | the turn machine: `GameState`, whose turn it is, placing and moving; `Game` is the object updated in place |
| `Json` | json.dfy | the JSON records and the conversions to and from the board and the game state |
| `Mcts` | mcts.dfy | the Monte Carlo bot's tallies, moves, rewards, back-propagation and tree upkeep |
| `Minimax` | minimax.dfy | the negamax bot's move scoring and best-move choice |
| `Features` | features.dfy | the neural-network bot's input planes |

## How the model is built

- **Values and objects.** `CellSet`, `Board` and `GameState` are values.
  Rust's `CellSet` is `Copy`, and the bots clone, compare and hash
  `GameState`. Each `&mut self` operation is therefore a function that
  returns the new value, or a `Result` carrying the same error as the
  source.
- **Classes.** Objects the source updates in place are classes with
  `modifies` clauses: the cell-set and line iterators, `Game` (the game
  state's mutating methods), MCTS's `Tally` and `MCTSBot`, and `MinimaxBot`.
- **Loops.** A loop in the source becomes a `method` proved equal to a
  specification function. This covers the flood fill, the prune loop, the
  move collection, feature extraction and the JSON board decoder.
- **Panics.** A Rust panic becomes a precondition, except where a row of
  "## Findings" models the code as written: there the panic itself is
  modelled.
- **Depth-first search.** `optimal_path` is a parameter, a `PathFinder`.
  `FinderSound` states what the source's search guarantees: a path starts
  at the penguin and each step is a legal move. The search stops at the
  first node whose penguin has no move, so the path has at least two
  cells unless the penguin is stuck; for a stuck penguin it may be the
  start cell alone. `prune` only fills for a penguin next to an iceberg,
  and such a penguin is never stuck (`TouchingNotStuck`).

## Model

| member | source | states |
|---|---|---|
| CellSets.CellSet.Contains | engine/src/cellset.rs:27-29 | true exactly when the value is a member |
| CellSets.CellSet.Insert | engine/src/cellset.rs:19-21 | the members afterwards are the old members plus the value |
| CellSets.CellSet.Remove | engine/src/cellset.rs:23-25 | the members afterwards are the old members minus the value |
| CellSets.CellSet.Intersect | engine/src/cellset.rs:31-33 | the members are the intersection of the two sets |
| CellSets.CellSet.Exclude | engine/src/cellset.rs:35-37 | the members are the set difference |
| CellSets.CellSet.Union | engine/src/cellset.rs:39-41 | the members are the union |
| CellSets.CellSet.IsEmpty | engine/src/cellset.rs:43-45 | true exactly when there are no members |
| CellSets.CellSet.Len | engine/src/cellset.rs:47-49 | the population count equals the number of members |
| CellSets.Empty | engine/src/cellset.rs:11-13 | the new set has no members |
| CellSets.Full | engine/src/cellset.rs:15-17 | `!0 >> 4` has exactly the 60 board cells as members |
| CellSets.FullBit | engine/src/cellset.rs:15-17 | bit i of `!0 >> 4` is set exactly when i < 60 |
| CellSets.EmptyIffZero | engine/src/cellset.rs:43-45 | the word is 0 exactly when the set is empty |
| CellSets.Extensionality | engine/src/cellset.rs:7-9 | two cell sets with the same members are equal |
| CellSets.ElementsSpec | engine/src/cellset.rs:51-81 | the iteration order is strictly increasing, and on the board it yields exactly the members |
| CellSets.FromSpec | engine/src/cellset.rs:67-81 | iterating from cell i yields, in increasing order, the members from i up to 59 |
| CellSets.SortedUnique | engine/src/cellset.rs:51-81 | two strictly increasing sequences with the same elements are equal, so the iteration order is determined by the members |
| CellSets.ElementsUnique | engine/src/cellset.rs:51-81 | any increasing listing of a board set's members is its iteration |
| CellSets.Iter.constructor | engine/src/cellset.rs:51-56 | the iterator starts at the set with `value` 0 |
| CellSets.Iter.Next | engine/src/cellset.rs:67-81 | on an exhausted iterator it returns None; otherwise it returns the first remaining member and drops it from the remaining members |
| CellSets.SkipClear | engine/src/cellset.rs:73-76 | the bits skipped by `trailing_zeros` after the shift are all clear |
| CellSets.Collect | engine/src/cellset.rs:97-104 | the collected set's members are exactly the values of the sequence |
| CellSets.FromIter | engine/src/cellset.rs:97-104 | the insert loop builds a set whose members are the values, equal to `Collect` |
| CellSets.CollectRebuild | engine/src/cellset.rs:92-104 | collecting a board set's own iteration gives back the same set |
| CellSets.ThreeInserted | engine/src/cellset.rs:146-161 | inserting three increasing cells gives length 3, and the set iterates them in order |
| Hex.HalfUpAsWritten | engine/src/hex.rs:15-20 | the recursive `HalfUp` equals `(r + (r & 1)) / 2`, and the dividend is even, so truncating and Euclidean division agree |
| Hex.HalfUpStep | engine/src/hex.rs:15-20 | one row further changes `HalfUp` by 1 exactly on even rows |
| Hex.FromEvenROnPlane | engine/src/hex.rs:51-56 | converting even-r to cube gives x + y + z = 0 |
| Hex.EvenRRoundTrip | engine/src/hex.rs:216-225 | even-r → cube → even-r is the identity |
| Hex.CubeRoundTrip | engine/src/hex.rs:228-239 | cube → even-r → cube is the identity on the plane x + y + z = 0 |
| Hex.CubeNeighbors | engine/src/hex.rs:62-95 | six neighbours, each on the plane when the cell is |
| Hex.Neighbors | engine/src/hex.rs:26-36 | six neighbours |
| Hex.NeighborCube | engine/src/hex.rs:26-36 | the even-r neighbours are the cube neighbours, direction by direction |
| Hex.NeighborsDistinct | engine/src/hex.rs:241-257 | the six neighbours are pairwise distinct, differ from the cell, and lie in line with it |
| Hex.NeighborSymmetric | engine/src/hex.rs:26-36 | the opposite direction (i + 3) mod 6 leads back from the i-th neighbour |
| Hex.NeighborInLine | engine/src/hex.rs:259-264 | every neighbour is in line with the cell |
| Hex.NeighborRing | engine/src/hex.rs:62-90 | the six directions go round the cell: each direction's neighbour is adjacent to the next direction's, and direction 5 is followed by direction 0 |
| Hex.Make | engine/src/hex.rs:118-145 | the cube built from two coordinates lies on the plane |
| Hex.LineCubeStep | engine/src/hex.rs:175-189 | each step of `line` moves to the neighbour in the chosen direction |
| Hex.LineStart | engine/src/hex.rs:147-189 | the line starts at src |
| Hex.LineReachesDst | engine/src/hex.rs:280-298 | for cells in line, dst is reached after `LineDistance` ≥ 1 steps, and not before |
| Hex.LineInjective | engine/src/hex.rs:300-313 | the line never visits a cell twice |
| Hex.LineInLine | engine/src/hex.rs:99-155 | every cell of the line is in line with src |
| Hex.LineSteps | engine/src/hex.rs:175-189 | consecutive cells of the line are neighbours |
| Hex.LineThroughNeighbor | engine/src/hex.rs:99-155 | a line is the line through one of src's six neighbours |
| Hex.LineToNeighbor | engine/src/hex.rs:99-155 | the line to a neighbour reaches it in one step |
| Hex.LineIter.constructor | engine/src/hex.rs:99-155 | `line(src, dst)` starts at step 0 for cells in line |
| Hex.LineIter.Next | engine/src/hex.rs:175-189 | returns the cell at the current step, then advances the step by one |
| BoardLines.StepSizes | engine/src/hex.rs:175-189 | a step moves at most one row, and two half-columns exactly when the row stays the same |
| BoardLines.LineClosedForm | engine/src/hex.rs:99-189 | after k steps the row and doubled column have moved k times the per-step change |
| BoardLines.RayLeavesBoard | engine/src/board.rs:197-209 | from an in-bounds cell, step 8 and beyond are off the board, so reading 7 cells of the ray loses nothing |
| BoardLines.LineConvex | engine/src/board.rs:211-220 | the cells between two in-bounds cells of a line are in bounds |
| BoardLines.LineNonNegative | engine/src/board.rs:211-220 | the cells between two cells with non-negative coordinates have non-negative coordinates |
| BoardLines.RayThroughPoint | engine/src/board.rs:189-209 | the line to the j-th cell of a ray is the same ray, and that cell is j steps away |
| BoardGeometry.IndexToEvenR | engine/src/board.rs:228-247 | the row-by-row loop returns the cell `CellAt(idx)` |
| BoardGeometry.RowStartFormula | engine/src/board.rs:222-226 | a row begins at index 15·(row / 2) + 7·(row mod 2) |
| BoardGeometry.LocateSpec | engine/src/board.rs:228-247 | the located row and column are within the row, and they index back to the start |
| BoardGeometry.LocateUnique | engine/src/board.rs:228-247 | any in-row position with the same index is the located one |
| BoardGeometry.IndexRoundTrip | engine/src/board.rs:417-422 | for idx < 60, `CellAt(idx)` is in bounds and `evenr_to_index` maps it back to idx |
| BoardGeometry.CellRoundTrip | engine/src/board.rs:222-247 | for an in-bounds cell, its index is < 60 and `index_to_evenr` maps it back |
| BoardGeometry.InBoundsIff | engine/src/board.rs:129-141 | in bounds exactly when the row is 0..7 and the doubled column is 0..14 |
| BoardGeometry.InBoundsRows | engine/src/board.rs:129-131 | in-bounds cells have row < 8 |
| BoardGeometry.InBoundIndices | engine/src/board.rs:121-127 | the filtered indices are board cells |
| BoardGeometry.InBoundIndicesMembers | engine/src/board.rs:121-127 | n is kept exactly when it is the index of an in-bounds cell of the list |
| BoardGeometry.Neighbors | engine/src/board.rs:121-127 | every neighbour index is a board cell |
| BoardGeometry.NeighborsSpec | engine/src/board.rs:121-127 | n is a neighbour index exactly when its cell is a hex neighbour of idx's cell |
| BoardGeometry.NeighborsSymmetric | engine/src/board.rs:121-127 | adjacency is symmetric and irreflexive |
| BoardGeometry.SmallerNeighbor | engine/src/board.rs:121-127 | every cell but 0 has a neighbour with a smaller index |
| Boards.AnyContains | engine/src/board.rs:79-81 | true exactly when one of the sets holds the cell |
| Boards.IsClaimed | engine/src/board.rs:79-81 | true exactly when some player's claimed set holds the cell |
| Boards.NumFish | engine/src/board.rs:71-77 | the result t is 1..3, the cell is in tier t, and in no earlier tier |
| Boards.NumFishTier | engine/src/board.rs:71-77 | on a valid board, a cell of tier t has t + 1 fish |
| Boards.NumFishSplit | engine/src/board.rs:71-77 | the fish count is the sum of tier indicators weighted 1, 2, 3 |
| Boards.ClaimCell | engine/src/board.rs:83-94 | fails exactly when the cell is claimed, with the source's message; otherwise adds the cell to the player's claims and penguins and changes nothing else |
| Boards.ClaimCellValid | engine/src/board.rs:83-94 | a successful claim keeps the board valid |
| Boards.ValidScorable | engine/src/board.rs:96-98 | every claimed cell of a valid board has fish, so `get_score` never panics |
| Boards.ScoreByTiers | engine/src/board.rs:96-98 | the score is 1·(one-fish claims) + 2·(two-fish claims) + 3·(three-fish claims) |
| Boards.SumFishByCounts | engine/src/board.rs:96-98 | summing `num_fish` over a list of cells counts the list's cells in each tier |
| Boards.CountInCard | engine/src/board.rs:96-98 | over a list without duplicates, the count equals the size of the set |
| Boards.FlatElements | engine/src/board.rs:143-148 | a cell is listed exactly when some set holds it |
| Boards.ClaimedCells | engine/src/board.rs:143-148 | a cell is listed exactly when it is a claimed board cell |
| BoardMoves.HoldsMembers | engine/src/board.rs:189-192 | `BitSet::contains` agrees with membership |
| BoardMoves.TakeOpenSpec | engine/src/board.rs:197-209 | the kept prefix consists of in-bounds unclaimed cells, and the first cell after it is not open |
| BoardMoves.RayFrom | engine/src/board.rs:197-209 | the j-th cell read is step k + j of the line |
| BoardMoves.LegalMovesInLine | engine/src/board.rs:197-209 | every returned cell is in bounds |
| BoardMoves.LegalMovesInLineCells | engine/src/board.rs:197-209 | the i-th returned cell is step i + 1 of the line and is open |
| BoardMoves.LegalMovesInLineStop | engine/src/board.rs:197-209 | the step after the returned cells is not open |
| BoardMoves.ToIndices | engine/src/board.rs:179-187 | maps each cell to its index |
| BoardMoves.MovesUpToSpec | engine/src/board.rs:179-187 | the moves over the first n directions are the union of those directions' rays |
| BoardMoves.RayMoveSound | engine/src/board.rs:179-187 | every collected move is a board cell in line with the source and with a clear path to it |
| BoardMoves.RayMoveComplete | engine/src/board.rs:179-187 | every board cell in line with a clear path is collected in one of the six directions |
| BoardMoves.MovesSpec | engine/src/board.rs:179-187 | `moves(idx)` holds n exactly when n is a board cell in line with idx and the path to it is clear |
| BoardMoves.MovesUnclaimed | engine/src/board.rs:179-187 | every move is a different, unclaimed board cell |
| BoardMoves.MovesUnclaimedBound | engine/src/board.rs:179-187 | no move lands off the board |
| BoardMoves.NeighborIsMove | engine/src/board.rs:179-187 | an unclaimed neighbour is always a move |
| BoardMoves.AllUnclaimed | engine/src/board.rs:211-220 | true exactly when no listed cell is claimed |
| BoardMoves.PathInBounds | engine/src/board.rs:211-220 | between two in-bounds cells of a line every step is in bounds |
| BoardMoves.ClearPathIsClearTo | engine/src/board.rs:211-220 | `is_clear_path` holds exactly when every cell after src, up to and including dst, is unclaimed |
| BoardMoves.IsLegalMoveAsWritten | engine/src/board.rs:189-192 | as written: it accepts only when src holds the player's penguin and dst is unclaimed; its caller must keep it from reaching `line` with cells not in line, where the source panics |
| BoardMoves.AsWrittenAgrees | engine/src/board.rs:189-192 | on destinations on the board where it does not panic, the as-written check equals the corrected one |
| BoardMoves.AsWrittenPanicsOutOfLine | engine/src/board.rs:189-192 | from cell 0 to cell 17, which are not in line, the as-written check reaches `line` and panics; the corrected check rejects the move |
| BoardMoves.AsWrittenAcceptsOffBoard | engine/src/board.rs:189-192 | from cell 52 the as-written check accepts destination 60, which is off the board and has no fish; the corrected check rejects it |
| BoardMoves.OffBoardStep | engine/src/board.rs:222-226 | cell 52 is (0,7), index 60 is (0,8), and the two are adjacent in line with nothing between |
| BoardMoves.LegalIffMove | engine/src/board.rs:189-192 | the corrected check holds exactly when src holds the player's penguin and dst is in `moves(src)` |
| BoardMoves.MovePenguin | engine/src/board.rs:100-119 | over the corrected legality check of Findings rows 1 and 2 (`LegalIffMove`), not the check as written: fails exactly on a move the corrected check rejects, with the source's message; otherwise claims dst and moves the penguin from src to dst, and changes nothing else |
| BoardMoves.MovePenguinValid | engine/src/board.rs:100-119 | a successful move keeps the board valid |
| BoardMoves.MovePenguinKeepsCount | engine/src/board.rs:100-119 | a successful move keeps the player's number of penguins |
| Components.Expand | engine/src/board.rs:392-405 | one round of the flood fill only adds cells |
| Components.Grow | engine/src/board.rs:392-405 | the fill contains its start and stays on the board |
| Components.GrowClosed | engine/src/board.rs:392-405 | the fill is closed: no enterable neighbour of a member is left out |
| Components.GrowLeast | engine/src/board.rs:392-405 | the fill is contained in every closed set that contains the start |
| Components.GrowLive | engine/src/board.rs:392-405 | filling from enterable cells enters only enterable cells |
| Components.GrowAvoidsClosed | engine/src/board.rs:371-390 | a fill from a cell outside a closed set stays disjoint from it |
| Components.GrowFromMember | engine/src/board.rs:371-390 | filling from any member of a component gives the same component |
| Components.FirstIn | engine/src/board.rs:371-390 | finds the first enterable cell not yet covered, or reports that there is none |
| Components.ComponentsFromSpec | engine/src/board.rs:371-390 | the components are non-empty, pairwise disjoint and closed, and their union is every enterable cell not yet covered |
| Components.AdjacencyFacts | engine/src/board.rs:121-127 | the board's neighbour table is a graph on the 60 cells and is symmetric |
| Components.NewNeighbors | engine/src/board.rs:397-399 | the pushed neighbours are exactly the unclaimed, unmarked neighbours |
| Components.StackStep | engine/src/board.rs:395-402 | one pop-and-push step of the fill keeps the stack invariant and decreases the termination measure |
| Components.Component | engine/src/board.rs:392-405 | the stack-based flood fill marks exactly the iceberg of `start` |
| Components.RoundStep | engine/src/board.rs:378-388 | adding the iceberg of the first uncovered cell keeps the round invariant and covers strictly more cells |
| Components.RoundDone | engine/src/board.rs:372-389 | the loop ends exactly when every unclaimed cell is covered, and then the list is the icebergs |
| Components.ConnectedComponents | engine/src/board.rs:371-390 | returns the icebergs of the board, in order of their lowest cell |
| Components.InsertAll | engine/src/board.rs:384-386 | marking a component adds exactly its members |
| Components.IcebergsPartition | engine/src/board.rs:371-390 | the icebergs are non-empty, pairwise disjoint and closed, and they cover exactly the unclaimed cells |
| Components.IcebergFromAnyCell | engine/src/board.rs:392-405 | filling from any cell of an iceberg gives that iceberg |
| Components.EmptyBoardOneIceberg | engine/src/board.rs:495-501 | with nothing claimed, there is exactly one iceberg, and it covers all 60 cells |
| Components.EmptyBoardReach | engine/src/board.rs:495-501 | with nothing claimed, every cell is reached from cell 0 |
| Components.IcebergList | engine/src/board.rs:371-390 | the compiled list equals the icebergs |
| CutCells.ClaimedFlags | engine/src/board.rs:159-177 | flag i says whether neighbour i is claimed |
| CutCells.IsCutCell | engine/src/board.rs:159-177 | as written: the loop answers true exactly when the neighbour list, read once from first to last without wrapping round, has at least two unclaimed-to-claimed transitions; the `is_cut_cell` row of "## Findings" shows this misses the doc comment's promise |
| CutCells.CrossingsStep | engine/src/board.rs:163-171 | one more neighbour adds a transition exactly when the previous one is unclaimed and this one is claimed |
| CutCells.CrossingsMonotone | engine/src/board.rs:163-175 | the count only grows as neighbours are read, so stopping at two is sound |
| CutCells.CrossingsBound | engine/src/board.rs:159-177 | there are at most half as many transitions as neighbours |
| CutCells.OpenCellNotCut | engine/src/board.rs:159-177 | a cell with no claimed neighbour is not a cut cell |
| CutCells.AsWrittenMissesWrap | engine/src/board.rs:150-177 | as written, on cell 18 with neighbours 19 and 10 claimed and 11, 17, 25, 26 unclaimed: the loop counts one crossing and answers false, yet neighbours 11 and 17 are fenced off from each other on both sides of the ring |
| CutCells.RingSeparation | engine/src/board.rs:150-158 | counted round the ring, there are two or more open-to-blocked crossings exactly when two open positions are fenced off from each other on both sides |
| CutCells.FirstFall | engine/src/board.rs:163-171 | an open run that meets a blocked position has an open-to-blocked crossing within it |
| CutCells.TwoFalls | engine/src/board.rs:163-175 | a count of two or more has two different crossings |
| CutCells.TwoFallsCount | engine/src/board.rs:163-175 | two different crossings are both counted |
| CutCells.FallsMonotone | engine/src/board.rs:163-175 | the count only grows as positions are read, so stopping at two is sound |
| CutCells.RingBlocked | engine/src/board.rs:159-165 | flag i says whether the neighbour in direction i is off the board or claimed |
| CutCells.IsCutCellRing | engine/src/board.rs:150-177 | corrected: counting round the ring, it answers true exactly when two unclaimed neighbours are fenced off from each other on both sides, as the doc comment says |
| CutCells.RingStep | engine/src/board.rs:150-158 | open neighbours in consecutive directions are adjacent board cells |
| CutCells.RunInIceberg | engine/src/board.rs:150-158 | the neighbours along an open run round the cell lie in the iceberg of the run's first cell |
| CutCells.NotCutNeighborsJoined | engine/src/board.rs:150-158 | when the corrected test answers false, the cell's unclaimed neighbours all lie in one iceberg of a board on which the cell itself is claimed, so taking the cell out splits nothing |
| Endgame.AnyUnclaimed | engine/src/board.rs:179-187 | true exactly when some listed cell is unclaimed |
| Endgame.StuckIffNoMoves | engine/src/board.rs:285-296 | a penguin is stuck exactly when `moves` is empty |
| Endgame.Movable | engine/src/board.rs:285-296 | keeps exactly the listed cells that are not stuck |
| Endgame.KeepMovable | engine/src/board.rs:285-296 | keeps exactly the members that are not stuck |
| Endgame.FewerPenguinsValid | engine/src/board.rs:285-296 | removing penguins keeps a board valid |
| Endgame.Reap | engine/src/board.rs:285-296 | keeps fish and claims, and keeps exactly the penguins that can still move |
| Endgame.ReapKeepsMovers | engine/src/board.rs:285-296 | a penguin survives `reap` exactly when it has a move |
| Endgame.ReapIdempotent | engine/src/board.rs:285-296 | reaping twice is the same as reaping once |
| Endgame.Walk | engine/src/board.rs:301-314 | walking a path keeps the fish |
| Endgame.WalkValid | engine/src/board.rs:301-314 | walking a path of legal moves keeps the board valid |
| Endgame.WalkEntersUnclaimed | engine/src/board.rs:301-314 | every cell entered was unclaimed |
| Endgame.WalkClaims | engine/src/board.rs:301-314 | the walker's claims grow by exactly the cells entered; the other players' claims are unchanged |
| Endgame.WalkOthersClaims | engine/src/board.rs:301-314 | the other players' claims and penguins are unchanged |
| Endgame.WalkMovesPenguin | engine/src/board.rs:301-314 | the player's penguins lose the first cell of the path and gain the last |
| Endgame.WalkProgress | engine/src/board.rs:301-314 | a walk of two or more cells strictly grows the set of claimed cells |
| Endgame.Fill | engine/src/board.rs:301-314 | returns true exactly when a path was found, and then walks it with `move_penguin`; otherwise the board is unchanged |
| Endgame.TouchesIceberg | engine/src/board.rs:258-268 | true exactly when a neighbour lies in the iceberg |
| Endgame.TouchingCells | engine/src/board.rs:258-268 | lists exactly the player's penguins that touch the iceberg |
| Endgame.TouchingSpec | engine/src/board.rs:258-268 | a penguin is listed, with its player, exactly when one of its neighbours lies in the iceberg |
| Endgame.CanLeave | engine/src/board.rs:273-275 | true exactly when some neighbour is unclaimed and outside the iceberg |
| Endgame.TouchedOnce | engine/src/board.rs:269-272 | a single touching penguin is the lone penguin of that iceberg |
| Endgame.PruneScan | engine/src/board.rs:257-280 | the scan over the icebergs keeps the fish |
| Endgame.PruneScanSpec | engine/src/board.rs:249-283 | the scan keeps the board valid; when it reports no change the board is unchanged; over icebergs of unclaimed cells, when it reports a change, the claimed cells strictly grew |
| Endgame.StartOnlyPathSound | engine/src/board.rs:349-356 | the search's answer for a stuck penguin, the start cell alone, satisfies `FinderSound` |
| Endgame.TouchingNotStuck | engine/src/board.rs:258-268 | a penguin with a neighbour in an iceberg of unclaimed cells is not stuck, so the path found for it makes a move |
| Endgame.IcebergSetsUnclaimed | engine/src/board.rs:371-390 | every cell of every iceberg is unclaimed |
| Endgame.PruneScanHead | engine/src/board.rs:257-280 | when the first iceberg is filled, its lone penguin cannot leave it |
| Endgame.PruneScanFillsLone | engine/src/board.rs:249-283 | when prune reports a change, some iceberg had a lone penguin that could not leave it and a path was found |
| Endgame.PruneScanSkips | engine/src/board.rs:269-278 | an iceberg that is not filled leaves the scan of the rest unchanged |
| Endgame.PruneScanFillAt | engine/src/board.rs:257-280 | when prune reports a change, some iceberg k passes the fill test, and prune on the icebergs from k on gives the same board |
| Endgame.PruneScanContested | engine/src/board.rs:562-570 | when no iceberg has exactly one touching penguin, prune changes nothing |
| Endgame.Below | engine/src/board.rs:371-390 | lists exactly the members below n |
| Endgame.AsCellSets | engine/src/board.rs:371-390 | the cell sets have exactly the given members |
| Endgame.IcebergSets | engine/src/board.rs:371-390 | the cell sets are the icebergs |
| Endgame.PruneSpec | engine/src/board.rs:249-283 | one prune pass keeps the fish |
| Endgame.Prune | engine/src/board.rs:249-283 | the loop over the icebergs returns the board and flag of `PruneSpec` |
| Endgame.PruneSpecFacts | engine/src/board.rs:249-283 | a prune pass keeps the board valid; when it reports no change the board is unchanged; when it reports a change, the count of unclaimed cells strictly fell |
| Games.DraftLength | engine/src/game.rs:16-24 | the draft lasts 8, 9 or 8 turns: each of the n players places 6 − n penguins |
| Games.Cyc | engine/src/game.rs:37-41 | the seat i places after start, modulo n |
| Games.CycStep | engine/src/game.rs:37-41 | one more step of `p += 1; p %= n` is the next seat |
| Games.TruncRem | engine/src/game.rs:44-45 | `isize %` truncates toward zero |
| Games.ReverseSeatSpec | engine/src/game.rs:43-51 | the reverse draft seat is n − 1 − turn mod n |
| Games.FirstOccupied | engine/src/game.rs:36-42 | finds the first seat from the turn's seat whose penguins are not all gone |
| Games.SomeSeatOccupied | engine/src/game.rs:36-42 | while the game is not over, the seat loop terminates |
| Games.ActivePlayerOf | engine/src/game.rs:32-57 | None exactly when the game is over; otherwise a seat below nplayers, and after the draft one that still has penguins |
| Games.ActivePlayerInPlay | engine/src/game.rs:36-42 | after the draft, the active player is the first seat from turn mod n that still has penguins |
| Games.DraftOrder | engine/src/game.rs:43-56 | during the draft, even rounds go in seat order and odd rounds in reverse |
| Games.TwoPlayerDraftOrder | engine/src/game.rs:147-160 | with two players the draft order is 0, 1, 1, 0, 0, 1, 1, 0 |
| Games.Placed | engine/src/game.rs:86-107 | fails exactly after the draft, off one-fish cells, or on claimed cells, with the source's messages; otherwise claims the cell, adds 1 to the player's score and advances the turn |
| Games.Settle | engine/src/game.rs:123-126 | pruning until nothing changes ends on a valid board on which prune changes nothing |
| Games.PruneUntilStable | engine/src/game.rs:123-126 | the `while has_pruned` loop returns `Settle` |
| Games.PruneKeepsSeats | engine/src/board.rs:249-283 | prune puts nothing in empty seats |
| Games.SettleKeepsSeats | engine/src/game.rs:123-126 | settling puts nothing in empty seats |
| Games.AfterMove | engine/src/game.rs:122-128 | the board after move, prune and reap is valid and scorable, and puts nothing in empty seats |
| Games.MoveBoard | engine/src/game.rs:122-127 | the board steps of `move_penguin` return `AfterMove` |
| Games.AfterMoveSteps | engine/src/game.rs:122-127 | the board after a move is reap(settle(board::move_penguin)) |
| Games.Moved | engine/src/game.rs:109-131 | over the corrected legality check of Findings rows 1 and 2: fails exactly during the draft or on a move the corrected check rejects, with the source's errors; otherwise moves, prunes, reaps, sets the mover's score to `get_score` and advances the turn |
| Games.MovedOk | engine/src/game.rs:109-131 | a legal move after the draft succeeds, with that state |
| Games.Applied | engine/src/game.rs:69-75 | Move dispatches to `move_penguin` and Place to `place_penguin` |
| Games.AppliedAdvances | engine/src/game.rs:69-75 | a successful action keeps the state well formed, keeps nplayers, and advances the turn by one |
| Games.Game.NewTwoPlayer | engine/src/game.rs:77-84 | two players, scores [0, 0], turn 0, on the given board |
| Games.Game.Assign | engine/src/game.rs:5-10 | replaces the state |
| Games.Game.ActivePlayer | engine/src/game.rs:32-57 | the loop returns `ActivePlayerOf` of the state |
| Games.Game.PlacePenguin | engine/src/game.rs:86-107 | succeeds exactly when `Placed` does and then takes its state; on error it returns the same error and the state is unchanged |
| Games.Game.MovePenguin | engine/src/game.rs:109-131 | over the corrected legality check of Findings rows 1 and 2: succeeds exactly when `Moved` does and then takes its state; on error it returns the same error and the state is unchanged |
| Games.Game.ApplyAction | engine/src/game.rs:69-75 | succeeds exactly when `Applied` does and then takes its state; on error the state is unchanged |
| Json.FishCounts | engine/src/json.rs:95-112 | 60 entries, each 1..3, and cell c lies in the tier its entry names |
| Json.CellLists | engine/src/json.rs:95-112 | one ascending list per set, listing exactly the members of each board set |
| Json.BoardToJson | engine/src/json.rs:95-112 | `fish[c]` is `num_fish(c)`; four ascending penguin lists and four claimed lists with exactly the board's members; no possible moves |
| Json.GameStateToJson | engine/src/json.rs:46-64 | mode Playing exactly when the draft is over; active player None exactly when the game is over, otherwise the active player; scores, turn and board carried over; nplayers 2; last move valid |
| Json.BoardToGameStateJson | engine/src/json.rs:66-78 | a fresh draft: turn 0, player 0 to play, scores [0, 0] |
| Json.CellsWith | engine/src/json.rs:116-125 | the cells whose fish entry is k |
| Json.ListOrEmpty | engine/src/json.rs:127-134 | a missing penguin list reads as empty |
| Json.Tier | engine/src/json.rs:116-125 | the decoded tier holds exactly the cells whose entry is k |
| Json.BoardOf | engine/src/json.rs:114-147 | the decoded board has the three fish tiers, the penguins and claims of seats 0 and 1 from the lists, and seats 2 and 3 empty |
| Json.FishTiersAsWritten | engine/src/json.rs:116-125 | as written: the loop indexes `fish[num_fish]` for `num_fish` in 1..=3 in a 3-array, so it always panics, shown as None |
| Json.FishTiers | engine/src/json.rs:116-125 | corrected loop: writes tier k into slot k − 1 and returns the three tiers |
| Json.SeatPenguins | engine/src/json.rs:127-134 | the penguin loop collects seats 0 and 1 |
| Json.SeatClaims | engine/src/json.rs:136-139 | the claimed loop collects seats 0 and 1 |
| Json.DecodeBoard | engine/src/json.rs:114-147 | the corrected decoder returns `BoardOf` |
| Json.GameStateOf | engine/src/json.rs:80-87 | the turn and the decoded board are the record's, as in the source; `nplayers` (2) and `scores`, which the source does not set, are filled from the record, as "## Left out" says |
| Json.CollectElements | engine/src/json.rs:95-147 | collecting a board set's element list gives back the set |
| Json.TiersRoundTrip | engine/src/json.rs:95-125 | decoding tier k of an encoded valid board gives the board's tier k |
| Json.FishRoundTrip | engine/src/json.rs:95-125 | the three decoded tiers are the board's tiers |
| Json.SeatsRoundTrip | engine/src/json.rs:95-139 | decoding the encoded seat lists gives back the seats, for boards with seats 2 and 3 empty |
| Json.BoardRoundTrip | engine/src/json.rs:95-147 | on a valid two-seat board, decode(encode(board)) is the board |
| Json.GameStateRoundTrip | engine/src/json.rs:46-87 | on a well-formed two-player state, decode(encode(state)) is the state |
| Json.FreshGameRoundTrip | engine/src/json.rs:66-87 | the record for a new board decodes to the new two-player game |
| Mcts.VisitOf | bots/src/mctsbot.rs:51-57 | an unseen edge reads (0, 0.0); otherwise its stored visit |
| Mcts.MarkedVisit | bots/src/mctsbot.rs:42-49 | the edge is added to the visit map; other edges are unchanged |
| Mcts.MarkThenGet | bots/src/mctsbot.rs:42-57 | after marking, the edge has one more visit and the reward added; other edges read as before |
| Mcts.MergedVisits | bots/src/mctsbot.rs:59-65 | the keys are the union, and each edge holds the sum of both tallies |
| Mcts.MergeThenGet | bots/src/mctsbot.rs:51-65 | reading a merged edge gives the sum of both readings |
| Mcts.MarkIsMerge | bots/src/mctsbot.rs:42-65 | marking a visit equals merging in a one-visit tally |
| Mcts.MergeCommutes | bots/src/mctsbot.rs:59-65 | merge is commutative |
| Mcts.MergeStep | bots/src/mctsbot.rs:59-65 | one iteration of the merge loop adds one edge of the other tally |
| Mcts.Tally.constructor | bots/src/mctsbot.rs:35-40 | no visits, and the untried moves are the node's available moves |
| Mcts.Tally.MarkVisit | bots/src/mctsbot.rs:42-49 | the visits become `MarkedVisit`; the untried moves are unchanged |
| Mcts.Tally.GetVisit | bots/src/mctsbot.rs:51-57 | reads `VisitOf` of the visits |
| Mcts.Tally.Merge | bots/src/mctsbot.rs:59-65 | the visits become `MergedVisits` of both tallies |
| Mcts.AllClaimedCells | bots/src/mctsbot.rs:94 | holds exactly the claimed cells |
| Mcts.DraftableCells | bots/src/mctsbot.rs:92-94 | holds exactly the unclaimed one-fish cells |
| Mcts.Places | bots/src/mctsbot.rs:95 | one Place per cell, in order |
| Mcts.DraftMovesSpec | bots/src/mctsbot.rs:91-96 | m is a draft move exactly when it places on an unclaimed one-fish cell |
| Mcts.StepsFrom | bots/src/mctsbot.rs:86-88 | one Move per destination, in order |
| Mcts.StepsSpec | bots/src/mctsbot.rs:84-90 | m is collected exactly when it goes from a listed source to one of its moves |
| Mcts.PlayMovesSpec | bots/src/mctsbot.rs:83-90 | m is collected exactly when it is a legal move for the player |
| Mcts.CurrentPlayer | bots/src/mctsbot.rs:74-76 | the active player, which exists while the game is not over |
| Mcts.AvailableMovesSpec | bots/src/mctsbot.rs:78-97 | m is available exactly when the game is not over and m is an accepted placement during the draft or a legal move after it |
| Mcts.AvailableIffAccepted | bots/src/mctsbot.rs:78-97 | m is available exactly when the game is not over and the engine accepts m |
| Mcts.PushSteps | bots/src/mctsbot.rs:86-88 | the inner push loop appends `StepsFrom` |
| Mcts.CollectSteps | bots/src/mctsbot.rs:83-90 | the nested loops return `PlayMoves` |
| Mcts.AvailableMoves | bots/src/mctsbot.rs:78-97 | the method returns `AvailableMovesOf` |
| Mcts.StepBoard | bots/src/mctsbot.rs:103-106 | claims dst for the player and moves the penguin from src to dst |
| Mcts.StepIsBoardMove | bots/src/mctsbot.rs:99-111 | on a legal move, the bot's cheap step equals `board.move_penguin` |
| Mcts.LegalStep | bots/src/mctsbot.rs:103-106 | the step of a legal move keeps the board valid |
| Mcts.StepAndReap | bots/src/mctsbot.rs:102-108 | the board stays valid with the same fish |
| Mcts.StepAndReapSpec | bots/src/mctsbot.rs:102-108 | the mover's claims grow by dst and no one else's change, every penguin left stood there after the step, and empty seats stay empty |
| Mcts.MadeMove | bots/src/mctsbot.rs:99-111 | Place applies the engine's `place_penguin`; Move applies step and reap but leaves the scores; the turn advances |
| Mcts.SettleStable | engine/src/game.rs:123-126 | settling a board that prune does not change returns it unchanged |
| Mcts.StepAndReapAsEngine | bots/src/mctsbot.rs:99-111 | when prune has nothing to do, the bot's move gives the engine's board |
| Mcts.MaxScore | bots/src/mctsbot.rs:131-132 | the result is one of the scores and no score exceeds it |
| Mcts.CountAtLeastAppend | bots/src/mctsbot.rs:135 | the count distributes over concatenation |
| Mcts.CountAtLeastZero | bots/src/mctsbot.rs:135 | the count is 0 exactly when every score is below the bound |
| Mcts.SharedTop | bots/src/mctsbot.rs:135 | more than one top score exactly when another player has at least p's score |
| Mcts.GetReward | bots/src/mctsbot.rs:130-140 | 0.0 exactly when someone scores more; 1.0 exactly when everyone else scores less; otherwise 0.5 |
| Mcts.Rewards | bots/src/mctsbot.rs:168-170 | one reward per player |
| Mcts.OutrightWin | bots/src/mctsbot.rs:130-140 | when one player wins outright, every other player gets 0.0 |
| Mcts.SharedWinExample | bots/src/mctsbot.rs:130-140 | scores [5, 5, 3] give rewards 0.5, 0.5 and 0.0 |
| Mcts.PathRewards | bots/src/mctsbot.rs:171-178 | each path step is credited the reward of the player to move at that node |
| Mcts.Backpropagated | bots/src/mctsbot.rs:171-178 | back-propagation keeps the set of nodes |
| Mcts.BackpropUntouched | bots/src/mctsbot.rs:171-178 | a node off the path is unchanged |
| Mcts.BackpropStops | bots/src/mctsbot.rs:171-178 | the loop stops at the first node missing from the tree |
| Mcts.BackpropCounts | bots/src/mctsbot.rs:171-178 | on a path of distinct tree nodes, each edge taken gains one visit and its player's reward |
| Mcts.Stats | bots/src/mctsbot.rs:29-32 | the statistics have the tree's nodes |
| Mcts.MarkNode | bots/src/mctsbot.rs:173-174 | marks the edge of one node and leaves the rest of the tree |
| Mcts.Backprop | bots/src/mctsbot.rs:171-178 | the tree's statistics become `Backpropagated`; the untried moves are unchanged |
| Mcts.ActionOf | bots/src/mctsbot.rs:247-250 | Place maps to Place and Move to Move, with the same cells |
| Mcts.ChosenActionAccepted | bots/src/mctsbot.rs:228-251 | the engine accepts the action of any available move |
| Mcts.MctsBot.constructor | bots/src/mctsbot.rs:190-198 | the root is the game, with an empty tree |
| Mcts.MctsBot.Update | bots/src/mctsbot.rs:200-204 | keeps exactly the tree nodes at or after the new turn, unchanged, and makes the game the root |
| Mcts.MctsBot.TakeAction | bots/src/mctsbot.rs:228-251 | the action of the chosen edge: a Move exactly when the draft is over |
| Minimax.BestOtherScoreSpec | bots/src/minimaxbot.rs:94-98 | the best other score bounds every other score and is 0 or one of them |
| Minimax.NegamaxScore | bots/src/minimaxbot.rs:92-100 | never more than the player's own score |
| Minimax.NegamaxSign | bots/src/minimaxbot.rs:92-100 | ≥ 0 exactly when nobody else scores more; > 0 exactly when the player leads outright |
| Minimax.NegamaxAlone | bots/src/minimaxbot.rs:92-100 | alone, the negamax score is the player's score |
| Minimax.NegamaxTwoPlayers | bots/src/minimaxbot.rs:92-100 | with two players it is own score minus the opponent's |
| Minimax.PairsFrom | bots/src/minimaxbot.rs:104-105 | pairs the source with each destination, in order |
| Minimax.PairsFromSpec | bots/src/minimaxbot.rs:104-105 | (x, y) is listed exactly when x is the source and y a destination |
| Minimax.PairsSpec | bots/src/minimaxbot.rs:102-107 | the flat map lists exactly the pairs of a source and one of its destinations |
| Minimax.AllMovesSpec | bots/src/minimaxbot.rs:102-107 | (src, dst) is listed exactly when it is a legal move for the player |
| Minimax.SomeMove | bots/src/minimaxbot.rs:102-107 | a penguin with a move gives a non-empty move list |
| Minimax.ReapedCanMove | engine/src/board.rs:285-296 | every penguin left by reap can move |
| Minimax.AfterMoveCanMove | engine/src/game.rs:122-127 | every penguin left after a move can move |
| Minimax.NextPlayerCanMove | bots/src/minimaxbot.rs:84-86 | after a move, if the game is not over, the next player has a move, so `best_move`'s unwrap is safe |
| Minimax.Successor | bots/src/minimaxbot.rs:79-83 | the cloned state after `move_penguin`, whose unwrap succeeds |
| Minimax.ScoreMove | bots/src/minimaxbot.rs:71-90 | a score per player; at ply ≤ 0 the current scores |
| Minimax.LastMaxIndex | bots/src/minimaxbot.rs:65-68 | the last index holding the maximum key |
| Minimax.BestMove | bots/src/minimaxbot.rs:60-69 | a legal move together with its own score vector |
| Minimax.BestMoveMaximal | bots/src/minimaxbot.rs:60-69 | no move has a higher negamax score than the chosen one |
| Minimax.PlyZeroKeepsScores | bots/src/minimaxbot.rs:76-78 | at ply 0 every move scores the current scores |
| Minimax.BestMoveAccepted | bots/src/minimaxbot.rs:60-69 | the engine accepts the chosen move |
| Minimax.MinimaxBot.constructor | bots/src/minimaxbot.rs:20-27 | ply 2 |
| Minimax.MinimaxBot.WithPly | bots/src/minimaxbot.rs:29-36 | the given ply |
| Minimax.MinimaxBot.Update | bots/src/minimaxbot.rs:38-40 | replaces the game and keeps player and ply |
| Minimax.MinimaxBot.TakeAction | bots/src/minimaxbot.rs:42-58 | after the draft, the best move; during it, the given placement; the engine accepts either |
| Features.Slot | bots/src/neuralnet.rs:4 | plane k < 8 of cell c < 60 is an index below 480 |
| Features.SlotOf | bots/src/neuralnet.rs:79-80 | every index below 480 is the slot of one plane and cell |
| Features.SlotInjective | bots/src/neuralnet.rs:79-80 | distinct planes or cells use distinct indices |
| Features.FeatureVector | bots/src/neuralnet.rs:80-127 | 480 entries |
| Features.FeatureAt | bots/src/neuralnet.rs:80-127 | entry `Slot(k, c)` is feature k of cell c |
| Features.FeaturesBinary | bots/src/neuralnet.rs:80-127 | every entry is 0.0 or 1.0 |
| Features.TierPlane | bots/src/neuralnet.rs:86-97 | plane k < 3 is 1.0 at c exactly when c has k + 1 fish |
| Features.PenguinsOnClaims | bots/src/neuralnet.rs:99-117 | a penguin plane's 1.0 implies the matching claimed plane's 1.0 |
| Features.PerspectiveSwap | bots/src/neuralnet.rs:81 | swapping the player swaps planes 3 with 4 and 5 with 6, and leaves the rest |
| Features.DraftPlane | bots/src/neuralnet.rs:119-124 | plane 7 is 1.0 exactly during the draft |
| Features.MarkTierCell | bots/src/neuralnet.rs:88-96 | sets one tier entry when the cell is in that tier, and leaves every other entry |
| Features.MarkTiers | bots/src/neuralnet.rs:87-97 | the first loop fills planes 0..2 and leaves the rest zero |
| Features.MarkPlane | bots/src/neuralnet.rs:100-117 | sets the plane's entries of the listed cells and leaves every other entry |
| Features.MarkCells | bots/src/neuralnet.rs:100-117 | sets the plane's entries of the set's members and leaves every other entry |
| Features.MarkAll | bots/src/neuralnet.rs:121-123 | fills the whole plane and leaves every other entry |
| Features.ExtractFeatures | bots/src/neuralnet.rs:80-127 | the buffer filled by the loops equals `FeatureVector` |

## Left out

- `Board::new` (engine/src/board.rs:38-69) shuffles the fish with a seeded random generator, so it is not modelled. `Boards.TiersPartition` states what it builds: every cell lies in exactly one tier. `Games.Game.NewTwoPlayer` takes the board as a parameter.
- `BitSet<u32>` from the `bit_set` crate holds the board's sets (engine/src/board.rs:31-35). The model uses `CellSet` for them too. The two agree on membership of cells 0..59, and `Boards.IsClaimed` is false beyond 63, like `BitSet::contains`.
- `optimal_path` (engine/src/board.rs:316-369) is a depth-first search for the best-scoring path. The model does not include it: `fill` takes it as a `PathFinder` parameter, constrained by `FinderSound`. Which path it picks, and so the score prune gives, is not modelled.
- engine/src/game.rs:60 and 96 read `board.cells[c]`, a field `Board` does not have. The model reads the claims and the fish tiers instead, as `is_claimed` and `num_fish` do.
- `GameState::get_scores`, used by `get_reward`, is not part of the source shown. The model reads the `scores` field.
- `Games.Applied`: `apply_action` calls `unimplemented!()` for `Selection` and `Setup`. Callers must pass `Move` or `Place`.
- Integer widths are unbounded: `usize`, `u64` and `i32` are modelled as unbounded integers. No visit count or score comes near those limits.
  - `Minimax.NegamaxScore` does not model `i32` overflow, because scores are at most 100.
  - `Mcts.VisitOf` does not model `u64` wrap-around of visit counts.
- Floating point: `f64` rewards and `f32` features are modelled as `real`. The only values that occur are 0.0, 0.5 and 1.0 and sums of them, which are exact.
- Randomness:
  - The playout's random rollout and its tree-descent loop (bots/src/mctsbot.rs:142-167) are not modelled.
  - `choose_child`'s UCB1 formula (bots/src/mctsbot.rs:114-128) is not modelled.
  - `select_by_key` (bots/src/mctsbot.rs:293-315) is not modelled.
  - `num_playouts` is not modelled.
  - These consume random numbers and floating-point logarithms.
  - The playout's final steps, computing the rewards and back-propagating them, are modelled (`Mcts.Rewards`, `Mcts.Backprop`).
- `Mcts.MctsBot.TakeAction`: the source picks the tally edge with the best mean reward by a floating-point comparison. The model takes the chosen edge as a parameter. It states that the edge becomes the returned action and that the engine accepts it. It does not state that the edge is best.
- The pondering thread, `ponder`, `finish_pondering` and `Ponderer` (bots/src/mctsbot.rs:207-222 and 255-290) are not modelled, because they are concurrency. `Mcts.MctsBot.Update` models only the tree pruning and the new root.
- `Minimax.MinimaxBot.TakeAction`: the draft placement is drawn at random (bots/src/minimaxbot.rs:50-56). The model takes it as a parameter, constrained to a placement the engine accepts.
- `Minimax.BestMove`: the source's `max_by_key` runs over a rayon parallel iterator, and which of several equally good moves it returns is not modelled. The model picks the last maximal move in `all_moves` order, as the standard library's sequential `max_by_key` does. `Minimax.BestMoveMaximal` holds for any maximal choice.
- `NeuralNet::load` and `NeuralNet::predict` (bots/src/neuralnet.rs:24-75) are not modelled. They read model files and run a tract network.
- The serde JSON text, `Display` and `From<&GameStateJSON> for String` (engine/src/json.rs:40-44 and 89-93) are not modelled. Only the field mapping of the records is.
- `Json.BoardOf`: the decoder fills two-element arrays `[CellSet; 2]` of seats (engine/src/json.rs:127 and 136). The model keeps the four-seat board and leaves seats 2 and 3 empty. The round trips therefore require the board's seats 2 and 3 to be empty.
- `Json.GameStateOf`: engine/src/json.rs:80-87 builds `GameState { turn, board }` only, without the `nplayers` and `scores` fields that engine/src/game.rs:5-10 declares. The model fills them from the record: `nplayers` is the record's fixed two (`NUM_PLAYERS`) and `scores` are the record's scores. `Json.GameStateRoundTrip` and `Json.FreshGameRoundTrip` rely on this choice.
- `BoardMoves.MovePenguin`, `Games.Moved` and `Games.Game.MovePenguin` run over the corrected legality check of the first two Findings rows. The source's `move_penguin` (engine/src/board.rs:106) calls the check as written: from 0 to 17 it panics in `line`, and from 52 to 60 it moves the penguin off the board, where the model returns an error.
- `Json.FishDecodable`: `i as u8` truncation of a cell index is unreachable, because the decoder requires every fish entry's index to be below 64.
- The randomized bot, the server, the training scripts and the WebAssembly bindings are outside the engine and bots modelled here.

## Findings

| source | as written | input that shows it | evidently intended | confidence | as-written member | corrected member |
|---|---|---|---|---|---|---|
| engine/src/board.rs:189-192 | `is_legal_move` calls `hex::line(src, dst)`, which panics when the cells are not in line, before checking that they are | a penguin on cell 0, with `dst` = 17 unclaimed | return false for cells not in line | not executed | BoardMoves.AsWrittenPanicsOutOfLine | BoardMoves.LegalIffMove |
| engine/src/board.rs:189-192 | `is_legal_move` never checks that `dst` is on the board. `is_clear_path` only checks the cells strictly between, and `BitSet::contains(60)` is false | a penguin on cell 52 (column 0, row 7), with `dst` = 60, which is (0, 8), off the board | accept only `dst` in `moves(src)` | not executed | BoardMoves.AsWrittenAcceptsOffBoard | BoardMoves.LegalIffMove |
| engine/src/board.rs:159-177 | `is_cut_cell` reads the neighbours once from first to last and never compares the last with the first, though the six directions go round the cell | cell 18, with neighbours 19 and 10 claimed and 11, 17, 25 and 26 unclaimed: one crossing is counted and the answer is false, yet 11 is fenced off from 17 by 10 on one side and by 19 on the other | count crossings round the ring of six directions, with off-board directions blocked, and answer true exactly when two unclaimed neighbours are fenced off from each other | not executed | CutCells.AsWrittenMissesWrap | CutCells.IsCutCellRing |
| engine/src/json.rs:116-125 | the fish loop runs `num_fish` over 1..=3 and writes `fish[num_fish]` into a three-element array `[CellSet; 3]`, so index 3 is out of range | any `BoardJSON` at all | write tier `num_fish` to `fish[num_fish - 1]` | not executed | Json.FishTiersAsWritten | Json.BoardRoundTrip |

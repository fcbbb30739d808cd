# match-3 board engine and game state, in Dafny

This project models the core of the match-3 puzzle game: an 8×8 board of typed
tiles, swap-to-match moves, cascading resolution with combo scoring and item
awards, gravity with refill, a Fisher–Yates reshuffle, and the game screen's
handlers (tile click, hammer, reshuffle, extra moves, new game).

Files and modules:

- `types.dfy` (`Types`): tiles, boards (`seq<seq<Option<Tile>>>`, row 0 on
  top), coordinates, item inventories, the constants (`GRID_SIZE` 8,
  `MAX_MOVES` 30, five moves per extra-moves item, starting items 3/2/1), and
  the board predicates `Full` and `Positioned`. `Positioned` means every tile's
  `row`/`col` names the cell that holds it.
- `matches.dfy` (`Matches`): the detector. `MatchSet` is the set of cells that
  lie in a horizontal or vertical run of three tiles of one type.
  `FindMatches` is the two-pass scan, and `MatchCount` counts the matched
  cells.
- `generate.dfy` (`Generate`): the tile factory and the board generator with
  its redraw loop.
- `gravity.dfy` (`Gravity`): per-column compaction and refill, proved equal to
  the column-wise specification `Settle`.
- `shuffle.dfy` (`Shuffle`): collect the tiles, Fisher–Yates them in place in
  an array, then lay them out in reading order.
- `adjacency.dfy` (`Adjacency`): the neighbour test.
- `resolution.dfy` (`Resolution`): one cascade step (`Step`: clear the
  matches, then settle), the award policy, and the cascade as a function
  (`Resolve`/`Cascade`) with its lemmas. It also holds the hammer finding
  below.
- `game.dfy` (`App`): the class `Game` holding the screen's state, with one
  method per handler, and `RunCascade`, the resolution loop.

Randomness is a parameter. A `Draw(pick, id)` stands for one random choice:
the tile type is `TILE_TYPES[pick % 6]`, and `id` stands for the timestamp and
random string that name a tile.
- A `Refill` gives the draw for a generated tile at (row, col).
- The cascade step k refills from `refills(k)`.
- The Fisher–Yates step i swaps index i with `choose(i) % (i + 1)`.
- The redraw loop of the generator takes the next type cyclically on each
  retry. This is one of the sequences of draws the random source can produce,
  and it lets the model prove that the loop ends after at most two retries.

The source's `while (hasMatches)` loop has no bound. The model bounds it by a
parameter `fuel`. `Resolution.stable` records whether the cascade stopped
because no match was left. `CascadeStable` proves that a cascade which is not
stable has used up all of its fuel.

## Model

| member | source | states |
|---|---|---|
| Generate.GenerateTile | utils/gameLogic.ts:5-13 | the new tile sits at the given cell, has the drawn id, is not matched, and has type `TILE_TYPES[pick % 6]` |
| Generate.EveryTypeCanBeDrawn | utils/gameLogic.ts:6 | every one of the six types can be produced by some draw |
| Generate.ConsecutiveTypesDiffer | utils/gameLogic.ts:21-26 | three consecutive draws in the retry order give three different types, so at most two retries are ever needed |
| Generate.Retry | utils/gameLogic.ts:21-26 | the draw of a retry: the next type in `TILE_TYPES`, cyclically, with the same id |
| Generate.CompletesRun | utils/gameLogic.ts:23-26 | the loop's condition: the type equals both cells to the left or both cells above |
| Generate.PickTile | utils/gameLogic.ts:20-27 | the redraw loop stops after at most two retries and keeps the first draw in the retry order whose type completes no run of three with the two cells to its left or the two above: every earlier draw would have completed one |
| Generate.NoTriplesNoMatches | utils/gameLogic.ts:23-26 | a grid with no run of three along a row or a column has an empty match set |
| Generate.CreateBoard | utils/gameLogic.ts:15-31 | the new board is full, every tile records its own cell and carries the id drawn for it, its type is that of its cell's draw or of one of the next two retries, and the board has no match |
| Matches.MatchSet | utils/gameLogic.ts:58-91 | a cell is in the set exactly when a horizontal or vertical window of three same-typed tiles covers it |
| Matches.FindMatches | utils/gameLogic.ts:58-91 | the scan reports each matched cell exactly once and no other cell, and reports as many cells as `MatchCount` |
| Matches.ScanComplete | utils/gameLogic.ts:61-85 | after both passes, the cells added by the scans are exactly the matched cells; before them, none |
| Matches.Add | utils/gameLogic.ts:67-69 | adding a cell to the detector's list: its elements become the old ones plus the cell, and a list without duplicates stays so |
| Matches.MatchCount | utils/gameLogic.ts:87-90 | the number of matched cells, counted row by row (its relation to `MatchSet` is `MatchCountIsSize`) |
| Matches.NoDupCardinality | utils/gameLogic.ts:59 | a list without duplicates is as long as the set of its elements, which is what converting the string set back to a list preserves |
| Matches.AtLeastThree | utils/gameLogic.ts:66-69 | a board with any match has at least three matched cells |
| Matches.MatchCountIsSize | utils/gameLogic.ts:87-90 | the count of matched cells equals the size of the match set, and is zero exactly when the set is empty |
| Matches.SameKindsSameMatches | utils/gameLogic.ts:66 | matching looks only at tile types, so two boards with the same type in every cell have the same matches |
| Gravity.Settle | utils/gameLogic.ts:93-111 | the settled board is full, and every tile records its own cell |
| Gravity.SettledColumn | utils/gameLogic.ts:97-108 | one settled column: fresh tiles on top, one per empty cell, then the column's tiles in order, each rewritten to its new row (its properties are `GravityColumn`, `Landing` and `OrderKept`) |
| Gravity.CompactColumn | utils/gameLogic.ts:97-105 | the compaction pass leaves the column's tiles, in their order, at the bottom with their rows rewritten, leaves the cells above empty, and changes no other column |
| Gravity.RefillColumn | utils/gameLogic.ts:106-108 | the refill pass puts a generated tile in each cell from `emptyRow` up to the top and changes nothing else |
| Gravity.ApplyGravity | utils/gameLogic.ts:93-111 | the in-place algorithm yields exactly `Settle` |
| Gravity.GravityColumn | utils/gameLogic.ts:97-108 | in a column with k empty cells, the top k cells of the result are fresh tiles and the rest are the column's tiles in order |
| Gravity.Landing | utils/gameLogic.ts:99-103 | a tile falls by exactly the number of empty cells below it, keeping its id and type |
| Gravity.OrderKept | utils/gameLogic.ts:98-104 | of two tiles in a column, the upper one still lands above the lower one |
| Gravity.SettleFull | utils/gameLogic.ts:93-111 | on a full board whose tiles record their cells, gravity changes nothing |
| Shuffle.Collect | utils/gameLogic.ts:34-37 | the board's tiles in reading order, empty cells skipped (the loop `CollectTiles` computes it) |
| Shuffle.CollectTiles | utils/gameLogic.ts:34-37 | the tiles are collected in reading order, empty cells skipped |
| Shuffle.ShuffleInPlace | utils/gameLogic.ts:40-43 | the array ends as the Fisher–Yates permutation of its old contents |
| Shuffle.LayOut | utils/gameLogic.ts:45-55 | the k-th tile goes to cell (k / 8, k % 8) with its position rewritten, and later cells stay empty |
| Shuffle.ShuffleBoard | utils/gameLogic.ts:33-56 | the method yields exactly `ShuffledBoard` |
| Shuffle.Steps | utils/gameLogic.ts:40-43 | the Fisher–Yates steps for i down to 1 applied to a list: swap index i with `choose(i) % (i + 1)`, then continue with i - 1 (its property is `StepsPermutes`) |
| Shuffle.FisherYates | utils/gameLogic.ts:40-43 | all the Fisher–Yates steps, from the last index down to 1 |
| Shuffle.Layout | utils/gameLogic.ts:45-55 | the board whose cell (k / 8, k % 8) holds the k-th tile relocated there, and whose later cells are empty |
| Shuffle.ShuffledBoard | utils/gameLogic.ts:33-56 | the reshuffle as a function: collect, Fisher–Yates, lay out (its properties are `ShuffleKeepsTiles`, `ShuffleLayout` and `ShuffleFull`) |
| Shuffle.StepsPermutes | utils/gameLogic.ts:40-43 | the Fisher–Yates steps permute the tiles (same multiset) |
| Shuffle.ShuffleKeepsTiles | utils/gameLogic.ts:33-56 | the reshuffled board holds the same multiset of tiles (ids, types, matched flags) as the original |
| Shuffle.ShuffleLayout | utils/gameLogic.ts:45-55 | the reshuffled board fills the first n cells in reading order (n the number of tiles), the rest are empty, and every tile records its cell |
| Shuffle.CollectCount | utils/gameLogic.ts:34-37 | a board holds at most 64 tiles, exactly 64 when full |
| Shuffle.ShuffleFull | utils/gameLogic.ts:33-56 | a full board reshuffles to a full board whose tiles record their cells |
| Adjacency.IsAdjacent | utils/gameLogic.ts:113-115 | true exactly when the cells share a row and differ by one column, or share a column and differ by one row |
| Adjacency.AdjacentSymmetric | utils/gameLogic.ts:113-115 | adjacency is symmetric |
| Adjacency.NotSelfNorDiagonal | utils/gameLogic.ts:113-115 | a cell is not adjacent to itself or to a diagonal neighbour |
| Adjacency.FourNeighbours | utils/gameLogic.ts:113-115 | the neighbours of a cell are exactly the four orthogonal ones |
| Resolution.Award | App.tsx:85-94 | the item one step wins: a hammer for exactly 4 cells, else a reshuffle for 5 or more, else an extra-moves item at combo 3, else none (its properties are `AwardRules`) |
| Resolution.AwardRules | App.tsx:85-94 | each step wins at most one item: a hammer exactly for 4 cells, otherwise a reshuffle exactly for 5 or more, otherwise an extra-moves item exactly at combo 3 |
| Resolution.Points | App.tsx:81-82 | a step with at least three cells at combo level 1 or more scores at least 30 |
| Resolution.Cleared | App.tsx:106-108 | the board with every cell of a set emptied (its properties are `ClearedCells`) |
| Resolution.ClearCells | App.tsx:106-108 | clearing the listed cells empties exactly those cells |
| Resolution.ClearedCells | App.tsx:106-108 | a cell of the cleared board is empty exactly when it was listed or already empty; other cells keep their tile |
| Resolution.Step | App.tsx:106-112 | one cascade step yields a full board whose tiles record their cells |
| Resolution.Resolve | App.tsx:77-118 | the `while (hasMatches)` loop as a function of its state (board, combo, fuel left, points and items so far): stop on a match-free board or when fuel is spent, else score, award and take one step (its properties are the `Resolve…` lemmas) |
| Resolution.Cascade | App.tsx:73-118 | the cascade from a board with combo 0, no points and no items (its properties are the `Cascade…` lemmas) |
| Resolution.ResolveCombo | App.tsx:76-118 | each step raises the combo by one, and there are at most `fuel` steps |
| Resolution.ResolveNoStep | App.tsx:77-118 | with fuel left, a cascade takes no step exactly when the board has no match, and then board, points and items are unchanged |
| Resolution.ResolveGains | App.tsx:81-94 | every step adds at least 30 points and at most one item, and no item count goes negative |
| Resolution.ResolveBoard | App.tsx:112-113 | a cascade that took a step ends on a full board whose tiles record their cells |
| Resolution.ResolveEnds | App.tsx:77-118 | a cascade ends stable exactly when its final board has no match and fuel was left; otherwise all the fuel was used |
| Resolution.CascadeScore | App.tsx:81-82 | the points won are at least 30 per step, are zero exactly when no step ran, and with fuel no step runs exactly on a match-free board |
| Resolution.CascadeStable | App.tsx:77-118 | the cascade stops on a match-free board unless it ran out of fuel |
| Resolution.CascadeAwards | App.tsx:85-94 | the cascade wins at most one item per step and never a negative count |
| Resolution.CascadeBoard | App.tsx:106-113 | a cascade with no step leaves its board alone; one with a step ends on a full board whose tiles record their cells |
| Resolution.HammerBoardAsWritten | App.tsx:128-137 | the hammer as written yields a well-shaped board: the holed board, or the cascade's final board |
| Resolution.HammerBoard | App.tsx:128-137 | the corrected hammer always shows a full board whose tiles record their cells |
| Resolution.HammerLeavesHole | App.tsx:128-137 | on a match-free full board, hammering a top cell whose refill has the old type leaves the hole on screen as written; the corrected hammer shows a full board |
| Resolution.HoleKeepsNoMatch | utils/gameLogic.ts:106-108 | refilling a top cell with a tile of its old type keeps a match-free board match-free |
| App.RunCascade | App.tsx:71-119 | the resolution loop computes exactly `Cascade`: same final board, points, items and combo |
| App.ClearAndSettle | App.tsx:106-112 | clearing the reported cells and applying gravity is one `Step` |
| App.Swapped | App.tsx:152-153 | the board after the two tiles trade cells, each rewritten to its new cell (its properties are `SwapExchanges` and `SwapTwice`) |
| App.SwapExchanges | App.tsx:151-153 | a swap moves each tile, with its id and type, to the other cell, leaves all other cells alone, and keeps a full board full with every tile recording its cell |
| App.SwapTwice | App.tsx:152-153 | swapping the same two cells twice restores the board |
| App.Reverted | App.tsx:166-168 | the board with both original tiles written back, each to its own cell (its property is `RevertRestores`) |
| App.RevertRestores | App.tsx:165-170 | a swap without a match puts back exactly the board from before the swap |
| App.StatusAfter | App.tsx:120-122 | the status a finished cascade leaves: game over when no move is left, else idle |
| App.HammerCascade | App.tsx:130-137 | the cascade the hammer starts: on the board settled after emptying the hit cell |
| App.Game.constructor | App.tsx:9-25 | a new game has a full, match-free board whose tiles carry their cells' drawn ids and types, score 0, 30 moves, status idle, nothing selected and items 3/2/1 |
| App.Game.ResolveBoard | App.tsx:71-123 | the board, score and items become the cascade's result; the final board has no match unless fuel ran out; status is game over exactly when no move is left |
| App.Game.HammerAt | App.tsx:128-137 | one hammer is spent, the hammer is disarmed, and the board, score and items are those of the corrected hammer's cascade |
| App.Game.SelectOrSwap | App.tsx:142-177 | first click selects. A click on a neighbour swaps the two tiles, and a swap with a match costs a move and runs the cascade. A swap without a match restores board and moves. A click elsewhere selects the clicked cell. |
| App.Game.HandleTileClick | App.tsx:125-178 | nothing changes unless the screen is idle and no cascade runs, or when the hammer is armed with none left; otherwise the hammer strikes or the click selects or swaps |
| App.Game.UseShuffle | App.tsx:180-189 | with a reshuffle item and an idle screen, the board is reshuffled, one item is spent and the cascade runs; otherwise nothing changes |
| App.Game.UseExtraMoves | App.tsx:191-198 | with an item left, five moves are added and one item spent; moves plus five per item never change |
| App.Game.ArmHammer | App.tsx:356-357 | the hammer becomes armed exactly when a hammer is left |
| App.Game.ResetGame | App.tsx:200-209 | a fresh match-free board of drawn ids and types, score 0, 30 moves, items 3/2/1, status idle, nothing selected, hammer disarmed |

`Game.Valid` is kept by every handler. It says the board is full and every
tile records its cell, the score and the item counts are non-negative, and the
selection is on the board.

## Left out

- Rendering, animation delays, toast messages, vibration, sound and settings
  are presentation, not game logic.
- The hint feature calls a language-model service over the network. It is
  outside the model, and the handlers' `setAiHint(null)` calls are not
  modelled.
- Persisting items, settings and the high score to `localStorage` is I/O.
  Items start from the constant starting inventory. The high-score effect at
  App.tsx:221-226 and `clearData` at App.tsx:211-219 are not modelled.
- `Math.random` and `Date.now` are not modelled. Their values come in as the
  parameters `Draw`, `Refill`, `refills` and `choose`. Tile ids are naturals
  rather than strings.
- The generator's retry draws the next type in order rather than a fresh
  random type. This is one possible sequence of random draws, chosen so the
  loop can be proved to end; the source's loop ends only with probability 1.
- App.RunCascade: the source's loop is unbounded, and the model bounds it by
  `fuel`.
- App.Game.ResolveBoard: the handlers run as one atomic step. So the game-over
  test reads the current `moves`. In the source, the `resolveBoard` closure
  sees the `moves` from before the move's own decrement. The `isResolving`
  guard and the 400 ms delay before a revert are interleavings the model does
  not have.
- App.Game.ResolveBoard: the intermediate screens of each step are not
  modelled, only the board after the step. Those are the board with matched
  tiles flagged (`isMatched`), then the board with the matched cells emptied,
  and both are immediately overwritten.
- Boards are values. The source's row copies (`map(row => [...row])`) are
  therefore implicit, and no aliasing between boards is modelled.
- App.Game.HandleTileClick: for a click without the hammer, the contract states
  only that the hammer stays disarmed, that moves drop by at most one and that
  the score does not fall. The exact outcome is the contract of
  App.Game.SelectOrSwap.
- App.Game.SelectOrSwap: the source's branch for a swap with an empty cell does
  nothing. The model's boards are always full, so that branch never runs.
- The statuses `Swapping` and `Resolving` exist in the type but the source
  never sets them. The model does not set them either.

Where the code and the written design disagree, the model follows the code:

- Item awards are an else-if chain (4 cells, else 5 or more, else combo 3), so
  one step wins at most one item. They are not independent awards.
- The reshuffle lays the tiles out from the top-left cell in reading order. It
  does not put them back on the cells they occupied.
- A swap without a match reverts the board and refunds the move, and the
  status stays idle.

## Findings

| source | as written | input that shows it | evidently intended | confidence | as-written member | corrected member |
|---|---|---|---|---|---|---|
| App.tsx:128-137 with App.tsx:78-113 | The hammer shows the holed board, then calls `resolveBoard(applyGravity(newBoard))`. `resolveBoard` only shows a board when at least one match is found, so with no match the settled board never reaches the screen and the hole stays. | A full, match-free board (every new board is one). Hammer the top cell (0, c) when the refill draw for (0, c) has the type the cell held. The settled board is then match-free again. | The settled, refilled board is shown whether or not a cascade follows. | not executed | Resolution.HammerLeavesHole (on Resolution.HammerBoardAsWritten) | Resolution.HammerBoard, used by App.Game.HammerAt |

# Crystal match-3 engine in Dafny

This project models the game logic of a browser match-3 puzzle: a square board of coloured crystals on which the
player swaps two neighbouring crystals. A swap counts only if it lines up three or more equal crystals in a row or
a column. Matched crystals are cleared, the rest fall and new ones drop in, until the board settles. Levels are
generated per difficulty tier, each with a goal (clear so many crystals of a colour or of two colours, or make so
many matches) and, from tier 2 on, a move limit. Achievements unlock from a small statistics record.

The model follows the JavaScript module by module:

- `colors.dfy` (module `Colors`): the six crystal colours and the palette of each tier, a prefix of the colour list.
- `tiers.dfy` (module `Tiers`): the tier table, the level-to-tier lookup with its tier-4 fallback, and the progress
  through a tier as an exact rational.
- `grid_helpers.dfy` (module `GridHelpers`): the board as a sequence of rows of cells (`Empty` stands for `null`).
  It covers bounds checks, `getCell`, cloning, swapping, adjacency, the placement test `wouldCreateMatch` (its
  four counting loops) and `countColors` (its nested loops). The shuffle of a palette is a permutation chosen by
  the supplied draws.
- `match_detector.dfy` (module `MatchDetector`):
  - `findMatches`: the `matchStart` scan of every row and column, proved equal to the set of cells lying in a
    maximal run of at least three equal crystals.
  - `removeMatches`.
  - `getMatchedColors`: its tally, proved to be the colour count of the listed cells.
  - `countMatches`: its flag scans, proved equal to a recursive specification of the counted groups.
- `gravity.dfy` (module `Gravity`):
  - `applyGravity`: collect each column top-down, write it back bottom-up, refill the rest. This reverses the
    survivors, and flips a full column upside down.
  - `processCascades`: the `while (true)` loop, proved equal to a recursive specification of the cascade.
- `moves.dfy` (module `Moves`): `hasValidMoves` and `findHint` (the same row-major, right-before-down search) and
  `ensureValidGrid` (bounded random reshuffles that keep the board's crystals).
- `level_generator.dfy` (module `LevelGenerator`):
  - `generateGrid`: row-major filling, with the proof that the fill always succeeds on a palette of three or more
    different colours, so no match exists at the start.
  - `generateGoal`: the goal type rotates through the tier's types, and the amount is interpolated.
  - `calculateMoveLimit`, `validateGridForGoal`, and `generateLevel` with its bounded retries.
- `game_state.dfy` (module `GameState`): the `useGameState` hook as the class `GameSession`, with one field per
  state cell the game logic uses.
  - `loadLevel`, `updateProgress` with `checkGoalCompletion`, `handleCellClick`, `attemptSwap` (timers run to
    their end in one step), `nextLevel` and `restartLevel`.
  - The whole state is also a value, `Snapshot`, so that a move can be stated as a relation between two states.
- `achievements.dfy` (module `Achievements`):
  - The ten achievement checks and the merge rules of `updateStats`.
  - `checkAchievements` as a loop over the achievements in definition order.
  - Local storage is modelled as the two fields of the class `AchievementStore`.
- `wrappers.dfy` (module `Wrappers`): `Option` and `Result`.

Randomness is passed in as parameters:
- a draw `d` picks `palette[d % |palette|]`;
- a sequence of draws drives each shuffle;
- each cascade round has its own refill function from position to draw.

The loop of `processCascades` has no bound in the source. The model gives it a number of rounds (`fuel`), and
returns `None` when the board has not settled within that many rounds.

## Model

| member | source | states |
|---|---|---|
| Colors.ColorNames | src/constants/colors.js:2-12 | There are six colour names: red, blue, green, yellow, purple, orange. |
| Colors.EveryColorNamed | src/constants/colors.js:12 | Every colour appears in COLOR_NAMES. |
| Colors.ColorNamesDistinct | src/constants/colors.js:2-12 | No colour name repeats. |
| Colors.PaletteSize | src/constants/colors.js:16-23 | The lookup of `colorCounts[tier]`, with 4 when the tier has no entry, gives between 4 and 6 colours. |
| Colors.ColorsForTier | src/constants/colors.js:15-24 | The palette of a tier is the prefix of COLOR_NAMES of that size. |
| Colors.PaletteShape | src/constants/colors.js:16-23 | A palette has no repeats. It has 4, 5 and 6 colours for tiers 1-3, all six for tier 4 (whatever the tier table's [5, 6] says), and the first four for any other tier. |
| Colors.PaletteHasThreeColors | src/constants/colors.js:16-23 | Every palette starts red, blue, green, so it has at least three colours. |
| Tiers.TierTable | src/constants/tiers.js:2-52 | Four entries keyed 1 to 4 in ascending order, the order in which `Object.entries` lists integer keys. |
| Tiers.ConfigOf | src/constants/tiers.js:2-52 | Only tier 1 has no move limit, and only tier 4 picks its grid size from a list. Tier 1 starts at level 1, and each later tier starts one level after the previous tier ends. |
| Tiers.FindTier | src/constants/tiers.js:56-63 | The first-hit loop over the tier table returns an entry of the table. |
| Tiers.TierForLevel | src/constants/tiers.js:55-64 | Levels 1-10 are tier 1, 11-25 tier 2, 26-50 tier 3. Every other level, including 0 and below and 1000 and up, is tier 4. The config returned is that tier's entry. |
| Tiers.RangesContiguous | src/constants/tiers.js:5 | The level ranges run from 1 to 999 without gaps or overlaps, and each range is non-empty. |
| Tiers.TierOfOwnRange | src/constants/tiers.js:55-64 | Every level inside a tier's own range maps to that tier, and levels from 1000 up map to tier 4. |
| Tiers.AllTiersWellFormed | src/constants/tiers.js:2-52 | Every goal type a tier lists has a target range. Every range and move-limit pair is ordered low to high. |
| Tiers.ProgressInTier | src/constants/tiers.js:67-70 | The progress is 0 at the tier's first level and 1 at its last. It lies in [0, 1] inside the range, below 0 before it and above 1 after it. |
| Tiers.ProgressMonotonic | src/constants/tiers.js:67-70 | Progress grows with the level number. |
| GridHelpers.CreateEmptyGrid | src/utils/gridHelpers.js:6-8 | Returns `size` rows of `size` empty cells. |
| GridHelpers.RandomColor | src/utils/gridHelpers.js:13-15 | The colour drawn is a palette colour. |
| GridHelpers.RandomColorCovers | src/utils/gridHelpers.js:13-15 | Every palette colour can be drawn. |
| GridHelpers.GetCell | src/utils/gridHelpers.js:20-30 | Empty for any position outside the grid, otherwise the cell itself. |
| GridHelpers.ValidPositionIsCell | src/utils/gridHelpers.js:20-22 | isValidPosition accepts exactly the indices of a square board's cells, so a crystal that getCell reads always lies at a valid position. |
| GridHelpers.CloneGrid | src/utils/gridHelpers.js:35-37 | The copy equals the original. |
| GridHelpers.Column | src/utils/gridHelpers.js:67-77 | Column c, read top to bottom. |
| GridHelpers.RunBefore | src/utils/gridHelpers.js:46-51 | The left (or upward) count: the stretch of the colour before the cell, stopped by another cell or the edge. |
| GridHelpers.RunAfter | src/utils/gridHelpers.js:53-58 | The right (or downward) count: the stretch of the colour after the cell, stopped by another cell or the edge. |
| GridHelpers.RunBeforeIs | src/utils/gridHelpers.js:46-51 | A stretch closed on the left is the value of the left count. |
| GridHelpers.RunAfterIs | src/utils/gridHelpers.js:53-58 | A stretch closed on the right is the value of the right count. |
| GridHelpers.RowRunLength | src/utils/gridHelpers.js:44-58 | The horizontal count is between 1 and the board size. |
| GridHelpers.ColumnRunLength | src/utils/gridHelpers.js:63-77 | The vertical count is between 1 and the board size. |
| GridHelpers.HorizontalRun | src/utils/gridHelpers.js:44-58 | The cells found by the left and right loops make up the whole horizontal run through the cell. |
| GridHelpers.VerticalRun | src/utils/gridHelpers.js:63-77 | The cells found by the up and down loops make up the whole vertical run through the cell. |
| GridHelpers.WouldCreateMatch | src/utils/gridHelpers.js:42-82 | True exactly when placing the colour would give a horizontal or vertical run of three or more. The cell's current content is ignored. |
| GridHelpers.CountOneMore | src/utils/gridHelpers.js:94 | Counting one more cell of a colour raises that colour's count and the total by one, and nothing else. |
| GridHelpers.OneCell | src/utils/gridHelpers.js:92-95 | A cell is either empty or a crystal of exactly one colour. |
| GridHelpers.CellsAreEmptyOrCrystals | src/utils/gridHelpers.js:90-97 | A line's length is its empty cells plus its crystals. |
| GridHelpers.TallyCounts | src/utils/gridHelpers.js:87-100 | The tally has a key exactly for the colours present, each mapped to its number of cells. The counts add up to the crystals. |
| GridHelpers.TallyPush | src/utils/gridHelpers.js:92-95 | One more cell adds one to its colour's count, or nothing when it is empty. |
| GridHelpers.CountRow | src/utils/gridHelpers.js:91-96 | The inner loop adds one row's cells to the counts of the cells before it. |
| GridHelpers.CountColors | src/utils/gridHelpers.js:87-100 | There is a key exactly for each colour on the board, mapped to its count; empty cells never count. The counts sum to the number of non-empty cells. |
| GridHelpers.SwapCells | src/utils/gridHelpers.js:105-111 | The result is the input grid with the two positions' cells exchanged, and every other cell unchanged. |
| GridHelpers.GridExt | src/utils/gridHelpers.js:105-111 | Proof helper: two square grids of one size with equal cells are equal. |
| GridHelpers.SwapTwice | src/utils/gridHelpers.js:105-111 | Swapping the same two positions twice gives back the original grid. |
| GridHelpers.SwapSelfAndSymmetric | src/utils/gridHelpers.js:105-111 | Swapping a position with itself changes nothing, and the order of the two positions does not matter. |
| GridHelpers.FlattenUpdate | src/utils/gridHelpers.js:106-110 | Replacing one row changes the board's bag of cells by exactly that row. |
| GridHelpers.SwapKeepsCells | src/utils/gridHelpers.js:105-111 | A swap keeps the board's bag of cells. |
| GridHelpers.BagsOfTwoReplacements | src/utils/gridHelpers.js:107-109 | Two writes that exchange two cells cancel out in the bag. |
| GridHelpers.AreAdjacent | src/utils/gridHelpers.js:116-122 | Adjacent exactly when the row difference plus the column difference is 1. |
| GridHelpers.AdjacencyShape | src/utils/gridHelpers.js:116-122 | Adjacency is symmetric and irreflexive, and diagonal neighbours are never adjacent. |
| GridHelpers.Shuffle | src/utils/levelGenerator.js:25 | The shuffled palette is a permutation of the palette. |
| GridHelpers.DistinctCounts | src/constants/colors.js:2-12 | A sequence without repeats holds each colour at most once. |
| GridHelpers.PermutationKeepsDistinct | src/utils/levelGenerator.js:105 | A shuffle of a palette without repeats has no repeats. |
| MatchDetector.MatchSet | src/utils/matchDetector.js:5-62 | A position is matched exactly when it is on the board and lies in a horizontal or vertical run of three or more equal crystals. |
| MatchDetector.ClosedRun | src/utils/matchDetector.js:17-29 | A uniform stretch closed on both sides is one run. Its cells are matched exactly when it holds crystals and is at least three long. |
| MatchDetector.ScanLine | src/utils/matchDetector.js:11-30 | The `matchStart` scan of one line marks exactly the indices lying in a run of three or more equal non-empty cells. |
| MatchDetector.FindMatches | src/utils/matchDetector.js:5-62 | The result is exactly the matched positions, each listed once. Each is on the board and holds a crystal, so runs of empty cells are never reported. |
| MatchDetector.RunGivesTriple | src/utils/matchDetector.js:22 | A cell in a run of three or more has three equal crystals side by side around it. |
| MatchDetector.TripleCellsInRun | src/utils/matchDetector.js:22-26 | Three equal crystals side by side are all matched. |
| MatchDetector.RunIffTriple | src/utils/matchDetector.js:9-31 | A line has a matched cell exactly when it holds three equal crystals side by side. |
| MatchDetector.NoMatchesIffNoTriples | src/utils/matchDetector.js:5-62 | findMatches is empty exactly when no row and no column holds three equal crystals side by side. |
| MatchDetector.Removed | src/utils/matchDetector.js:67-75 | The emptied grid has the shape of the input. |
| MatchDetector.RemoveMatches | src/utils/matchDetector.js:67-75 | Exactly the listed positions become empty, and every other cell is unchanged. |
| MatchDetector.RemovalConservesColours | src/utils/matchDetector.js:67-75 | The crystals of each colour before removal are those after it plus the removed ones. |
| MatchDetector.ClearedLineTriple | src/utils/matchDetector.js:67-75 | In a line whose cells were kept or emptied, three equal crystals side by side contain a surviving cell that was already in a run. |
| MatchDetector.RemovingMatchesLeavesNone | src/utils/matchDetector.js:67-75 | Removing the matches of findMatches leaves a board without a match. |
| MatchDetector.TallyStep | src/utils/matchDetector.js:197-202 | One more listed position adds one to its own colour's tally and to no other. |
| MatchDetector.FilledStep | src/utils/matchDetector.js:199 | One more listed position adds one to the crystals counted exactly when it holds a crystal. |
| MatchDetector.ColourTally | src/utils/matchDetector.js:194-205 | There is a key exactly for each colour among the listed cells, mapped to how many listed cells hold it. |
| MatchDetector.TalliesAreColourTally | src/utils/matchDetector.js:194-205 | Any map meeting the tally property is the colour tally. |
| MatchDetector.TallyOneMore | src/utils/matchDetector.js:197-202 | One step of the forEach keeps the tally property. |
| MatchDetector.ColourTallyTallies | src/utils/matchDetector.js:194-205 | The colour tally of any set of board positions sums to its number of crystals. |
| MatchDetector.ColourTallyStep | src/utils/matchDetector.js:197-202 | The induction step of the tally sum. |
| MatchDetector.MatchesHaveThree | src/utils/matchDetector.js:22 | A board with a match holds at least three matched crystals. |
| MatchDetector.RunTriple | src/utils/matchDetector.js:19-26 | A matched cell lies within three neighbouring cells of its run. |
| MatchDetector.ThreeFilled | src/utils/matchDetector.js:22 | Three different matched positions mean at least three matched crystals. |
| MatchDetector.SubsetSize | src/utils/matchDetector.js:194-205 | Proof helper: a subset is no larger than the set. |
| MatchDetector.GetMatchedColors | src/utils/matchDetector.js:194-205 | The result is the colour tally of the listed cells, and its counts sum to the listed cells that hold a crystal. |
| MatchDetector.MatchedRow | src/utils/matchDetector.js:93-94 | The matched flags of a row. |
| MatchDetector.MatchedColumn | src/utils/matchDetector.js:122-123 | The matched flags of a column. |
| MatchDetector.Streak | src/utils/matchDetector.js:139-149 | The number of consecutive set flags from an index on, stopped by a clear flag or the end. |
| MatchDetector.StreakIs | src/utils/matchDetector.js:139-149 | A stretch of set flags closed on the right is the streak. |
| MatchDetector.NoGroupInside | src/utils/matchDetector.js:96-102 | No group starts inside a stretch of set flags. |
| MatchDetector.ClosedStretch | src/utils/matchDetector.js:103-114 | A maximal stretch adds one counted group exactly when it is at least three long. For a column, it must also span no row holding three matched cells side by side. |
| MatchDetector.ScanStep | src/utils/matchDetector.js:93-110 | One step of the inMatch/matchLength scan keeps its state and counts the stretch it closes. |
| MatchDetector.ScanEnd | src/utils/matchDetector.js:112-114 | The check after the loop counts the stretch still open. |
| MatchDetector.SpanHasHorizontalRun | src/utils/matchDetector.js:136-152 | True exactly when some row in the span has three matched cells side by side, anywhere in that row. |
| MatchDetector.CountMatches | src/utils/matchDetector.js:80-188 | The count is the groups of the group specification: every horizontal group, plus each vertical group whose span has no row with a horizontal run of three. It is 0 when findMatches is empty. |
| MatchDetector.CountGroups | src/utils/matchDetector.js:86-187 | Both passes together give the group specification's count. |
| MatchDetector.CountRowGroups | src/utils/matchDetector.js:89-115 | One row's pass counts each maximal stretch of three or more matched cells. |
| MatchDetector.CountColumnGroups | src/utils/matchDetector.js:118-185 | One column's pass counts each such stretch whose span has no row with three matched cells side by side. |
| MatchDetector.NoGroupsInClearLine | src/utils/matchDetector.js:89-115 | A line with no matched cell has no group. |
| MatchDetector.NoGroupsWithoutMatches | src/utils/matchDetector.js:80-188 | With nothing matched, countMatches is 0. |
| MatchDetector.NoRowGroups | src/utils/matchDetector.js:89-115 | With nothing matched, the horizontal pass counts nothing. |
| MatchDetector.NoColumnGroups | src/utils/matchDetector.js:118-185 | With nothing matched, the vertical pass counts nothing. |
| MatchDetector.TwoSeparateRunsByRow | src/utils/matchDetector.js:93-94 | The row flags of the example board. |
| MatchDetector.TwoSeparateRunsByColumn | src/utils/matchDetector.js:122-123 | The column flags of the example board. |
| MatchDetector.VerticalGroupOverSuppressed | src/utils/matchDetector.js:132-157 | Take a vertical run in column 0 and a separate horizontal run elsewhere in row 1. countMatches counts one group, not two: the vertical run is dropped although the two runs do not touch. |
| MatchDetector.NoRunWithoutTriple | src/utils/matchDetector.js:9-31 | A line of five cells without three equal cells side by side has no matched cell. |
| MatchDetector.AcrossRun | src/utils/matchDetector.js:9-31 | Row 1 of the example board: only the purple cells in columns 2 to 4 are matched. |
| MatchDetector.DownRun | src/utils/matchDetector.js:33-55 | Column 0 of the example board: only the red cells in rows 0 to 2 are matched. |
| MatchDetector.OtherLines | src/utils/matchDetector.js:5-62 | No other row or column of the example board has a matched cell. |
| MatchDetector.TwoRunsBoardMatches | src/utils/matchDetector.js:5-62 | The matched cells of the example board are exactly the two separate runs. |
| MatchDetector.TwoRunsBoardCountsOne | src/utils/matchDetector.js:80-188 | countMatches returns 1 on the example board, although it holds two separate runs. |
| Gravity.Survivors | src/utils/gravity.js:15-21 | The crystals collected from a column: no empty cell, and no more than the column's length. |
| Gravity.SurvivorsAreTheCrystals | src/utils/gravity.js:17-21 | The survivors are the column's crystals, each exactly as often. |
| Gravity.FullColumnSurvives | src/utils/gravity.js:17-21 | A column without empty cells survives whole, in order. |
| Gravity.Reversed | src/utils/gravity.js:29-34 | The sequence read from the back. |
| Gravity.ReversedSameCells | src/utils/gravity.js:29-34 | Reversing keeps the cells. |
| Gravity.UpsideDown | src/utils/gravity.js:30-34 | The rows in reverse order. |
| Gravity.Fill | src/utils/gravity.js:29-38 | The bottom-up fill loop writes exactly n cells. |
| Gravity.FillCells | src/utils/gravity.js:29-38 | Row r takes crystal n-1-r when there is one, and a refill colour from the palette otherwise. |
| Gravity.FallenColumnFilled | src/utils/gravity.js:29-38 | A fallen column has no empty cell. The top rows are refills from the palette. |
| Gravity.FillBottom | src/utils/gravity.js:29-34 | The bottom rows hold the survivors reversed: the topmost survivor lands lowest. |
| Gravity.FallenColumnKeepsCrystals | src/utils/gravity.js:13-38 | With k survivors, the bottom k rows are the survivors read bottom-up. |
| Gravity.Settle | src/utils/gravity.js:13-39 | One column falls and the board keeps its shape. |
| Gravity.GravityUpTo | src/utils/gravity.js:13-39 | After c passes of the loop, the board keeps its shape. |
| Gravity.AfterGravity | src/utils/gravity.js:8-42 | applyGravity keeps the board's shape. |
| Gravity.GravityUpToCell | src/utils/gravity.js:13-39 | After c passes, columns before c have fallen and the others are unchanged. |
| Gravity.SettleCell | src/utils/gravity.js:14-38 | After one column falls, its cells are the fallen column's and every other cell is unchanged. |
| Gravity.UntouchedColumn | src/utils/gravity.js:13-39 | A column the loop has not reached yet is still the input's column. |
| Gravity.GravityCells | src/utils/gravity.js:8-42 | Each cell after gravity is that cell of its own fallen column. |
| Gravity.ColumnsFallIndependently | src/utils/gravity.js:13-39 | What a column becomes depends on that column alone. |
| Gravity.GravityFillsAndFlips | src/utils/gravity.js:8-42 | After gravity no cell is empty, and a board without empty cells comes out upside down. |
| Gravity.SettleColumn | src/utils/gravity.js:14-38 | One pass of the column loop (collect, clear, fill from the bottom) is that column falling. |
| Gravity.ApplyGravity | src/utils/gravity.js:8-42 | The result is the board with every column fallen. |
| Gravity.AddCounts | src/utils/gravity.js:65-67 | The running sum has a key where either tally has one, and each count is the sum of the two. |
| Gravity.TallyExt | src/utils/gravity.js:65-67 | Proof helper: two tallies with the same keys and counts are equal. |
| Gravity.AddNothing | src/utils/gravity.js:51 | Adding an empty tally changes nothing. |
| Gravity.AddCountsAssociative | src/utils/gravity.js:65-67 | The order in which the rounds' tallies are grouped does not matter. |
| Gravity.AddCountsTotal | src/utils/gravity.js:65-67 | The totals add up. |
| Gravity.PartEnds | src/utils/gravity.js:65-67 | Before the forEach none of the cleared counts are added; after it, all are. |
| Gravity.AddOneKey | src/utils/gravity.js:66 | One forEach step adds one more colour's count. |
| Gravity.AccumulateCleared | src/utils/gravity.js:65-67 | The forEach adds every cleared count into totalCleared. |
| Gravity.Round | src/utils/gravity.js:69-73 | Removing the matches and then applying gravity keeps the board's shape. |
| Gravity.AfterNothing | src/utils/gravity.js:49-52 | A result seen from no rounds back, with nothing tallied, is itself. |
| Gravity.AfterThen | src/utils/gravity.js:54-77 | Prepending one round moves the round count and the tally by one round. |
| Gravity.CascadeStep | src/utils/gravity.js:54-77 | One round of the loop on a board with a match, seen from the start, leads to the same cascade. |
| Gravity.RoundFills | src/utils/gravity.js:69-73 | A round leaves no empty cell. |
| Gravity.ClearRound | src/utils/gravity.js:63-76 | The loop body tallies the matches, removes them and applies gravity. No cell is left empty, and at least three crystals are added to the total. |
| Gravity.LoopStarts | src/utils/gravity.js:49-52 | The loop starts from the input board, with no round and nothing cleared. |
| Gravity.LoopEnds | src/utils/gravity.js:56-61 | On leaving the loop on a board without a match, the result is the cascade of the input. |
| Gravity.Cascade | src/utils/gravity.js:54-77 | A settled cascade ends on a square board of the input's size without a match, after at most fuel rounds. It ran no round exactly when the input held no match. |
| Gravity.Then | src/utils/gravity.js:63-76 | One round in front of a result: defined exactly when the rest is, with one more round, the same final board, and each colour's count raised by the round's tally. |
| Gravity.LoopGivesUp | src/utils/gravity.js:54 | A board still matching once all rounds are spent has no settled cascade within those rounds. |
| Gravity.NextRound | src/utils/gravity.js:63-76 | One round keeps the loop's invariant, with one more round counted. |
| Gravity.ProcessCascades | src/utils/gravity.js:48-84 | The result is the cascade specification. An input without a match returns itself, 0 rounds and nothing cleared. A settled result is a board of the same size with no match, cascadeCount is the number of rounds (0 exactly when the input had no match), and at least three crystals are cleared per round. |
| Moves.Direction | src/utils/gravity.js:96-122 | 0 for a swap with the right neighbour, 1 for one with the cell below. |
| Moves.OnlyMoveBetween | src/utils/gravity.js:96-122 | Between trying the right swap and the lower swap of a cell, the search passes exactly one move. |
| Moves.TryMove | src/utils/gravity.js:98-107 | Trying a move answers whether swapping the two cells leaves a match. |
| Moves.RightTried | src/utils/gravity.js:96-108 | Once the right swap has failed, or does not exist, no move up to it is valid. |
| Moves.DownTried | src/utils/gravity.js:110-122 | Once the lower swap has failed, or does not exist, no move up to the next cell is valid. |
| Moves.RowTried | src/utils/gravity.js:95-123 | Past a row's last cell, the whole row has been tried. |
| Moves.AllTried | src/utils/gravity.js:94-126 | Past the last row there is no valid move. |
| Moves.TryCell | src/utils/gravity.js:172-205 | One cell of the search: a hit is its right or lower swap and is valid; a miss means nothing up to the next cell is valid. |
| Moves.FirstHit | src/utils/gravity.js:171-207 | A valid move reached with nothing valid before it is the first valid move in search order. |
| Moves.HasValidMoves | src/utils/gravity.js:90-127 | True exactly when some right or lower swap creates a match. |
| Moves.FindHint | src/utils/gravity.js:167-210 | None exactly when hasValidMoves is false. Otherwise the hint is an in-bounds right or lower swap that creates a match, and no move before it in row-major, right-before-down order does. |
| Moves.AdjacentSwapsSearched | src/utils/gravity.js:90-127 | Any matching swap of two adjacent cells means the search finds a move, so searching only right and lower swaps loses nothing. |
| Moves.SwapCount | src/utils/gravity.js:143 | `Math.floor(size * size * 0.2)`; a board that gets any swap is non-empty. |
| Moves.DrawnPos | src/utils/gravity.js:146-149 | Two draws, each taken modulo the size, give a position on the board. |
| Moves.SwapDrawnCells | src/utils/gravity.js:151-153 | Exchanging the cells at the two drawn positions keeps the board square and of its size. |
| Moves.SwapDrawnKeepsCells | src/utils/gravity.js:151-153 | One drawn swap keeps the board's bag of crystals. |
| Moves.Reshuffled | src/utils/gravity.js:145-154 | The board after the first i swaps of a reshuffle, swap i using draws next + 4i to next + 4i + 3. It keeps the board's shape and bag of crystals. |
| Moves.ReshuffledStep | src/utils/gravity.js:145-154 | Proof helper: one more drawn swap gives the next prefix of the reshuffle. |
| Moves.ReshuffleSwap | src/utils/gravity.js:146-153 | One pass of the swap loop is the drawn swap. |
| Moves.Reshuffle | src/utils/gravity.js:139-156 | The copy after the loop is the board after all swapCount drawn swaps, from draw next on. It keeps the board's bag of crystals. |
| Moves.Reshuffles | src/utils/gravity.js:137-158 | The board after k reshuffles in a row, each drawing from its own start. Each keeps the shape and bag of crystals. |
| Moves.ReshufflesStep | src/utils/gravity.js:156-157 | Proof helper: one more reshuffle extends the sequence of boards. |
| Moves.NoMoveYet | src/utils/gravity.js:137 | Proof helper: the loop goes on only over boards without a move. |
| Moves.EnsureValidGrid | src/utils/gravity.js:133-161 | The result is the board after `attempts` reshuffles, and every board before it had no move. The result has a move unless all maxAttempts were spent, and at most maxAttempts reshuffles are made. The bag of crystals is kept, and a board that has a move is returned as is. |
| LevelGenerator.TripleAfterPlacing | src/utils/levelGenerator.js:28-33 | Three equal crystals side by side after a placement were there before, or run through the new cell. |
| LevelGenerator.RunAround | src/utils/levelGenerator.js:29 | When the other two cells of a window of three equal the colour, the run through the cell is at least three long. |
| LevelGenerator.PlaceInLine | src/utils/levelGenerator.js:29-30 | A placement that makes no run of three keeps a line free of triples. |
| LevelGenerator.Placed | src/utils/levelGenerator.js:30 | Writing one cell keeps the board's shape. |
| LevelGenerator.PlaceKeepsRows | src/utils/levelGenerator.js:29-30 | A colour with a horizontal count below 3 keeps every row free of triples. |
| LevelGenerator.PlaceKeepsColumns | src/utils/levelGenerator.js:29-30 | A colour with a vertical count below 3 keeps every column free of triples. |
| LevelGenerator.ColumnOfPlaced | src/utils/levelGenerator.js:30 | A write changes one column at one row only. |
| LevelGenerator.PlaceKeepsNoTriples | src/utils/levelGenerator.js:29-30 | A colour accepted by wouldCreateMatch keeps the board free of triples. |
| LevelGenerator.BlockedByNeighbour | src/utils/levelGenerator.js:22-29 | With the cells right of and below still empty, a colour is refused only when the left or upper neighbour has it. |
| LevelGenerator.SomeColourFree | src/utils/levelGenerator.js:25-34 | Of three or more different colours, some colour is accepted. |
| LevelGenerator.FillOneMore | src/utils/levelGenerator.js:22-30 | Writing a palette colour into the next empty cell fills the board one cell further. |
| LevelGenerator.FreeColourInShuffle | src/utils/levelGenerator.js:25-34 | Any shuffle of such a palette holds a colour that fits. |
| LevelGenerator.FillStep | src/utils/levelGenerator.js:22-44 | Filling one more cell keeps the fill invariant: a row-major prefix of palette colours, and no triples. |
| LevelGenerator.PlaceColour | src/utils/levelGenerator.js:26-34 | The first accepted colour of the shuffle is written, and every earlier one was refused. With none accepted, the board is unchanged. |
| LevelGenerator.FillCell | src/utils/levelGenerator.js:22-40 | A successful cell keeps the fill invariant. A failure is possible only with fewer than three different colours. |
| LevelGenerator.FillAttempt | src/utils/levelGenerator.js:17-48 | An attempt gives a square board of the size. A success has palette colours everywhere and no triples, and with three or more different colours it always succeeds. |
| LevelGenerator.RandomGrid | src/utils/levelGenerator.js:53-61 | The fallback fills every cell with a palette colour. |
| LevelGenerator.GenerateGrid | src/utils/levelGenerator.js:13-62 | Always a size-by-size board of palette colours. Without the fallback it has no match, and with three or more different colours and at least one attempt the fallback never runs. |
| LevelGenerator.JsRem | src/utils/levelGenerator.js:72 | JavaScript's `%`: the remainder has the sign of the dividend. |
| LevelGenerator.GoalTypeAt | src/utils/levelGenerator.js:72-73 | The goal type is `goalTypes[(level - first) % length]`. It is absent exactly where that index falls outside the list. |
| LevelGenerator.TargetAmount | src/utils/levelGenerator.js:78 | `Math.floor(min + (max - min) * progress)` lies in [min, max] for progress in [0, 1]. |
| LevelGenerator.TargetAmountGrows | src/utils/levelGenerator.js:78 | The amount does not fall as progress grows. |
| LevelGenerator.DualGoal | src/utils/levelGenerator.js:100-117 | Two targets with the same amount, both palette colours, different when the palette has no repeats. |
| LevelGenerator.GenerateGoal | src/utils/levelGenerator.js:67-122 | Succeeds exactly when the rotated goal type exists and has a target range (the source throws otherwise). The goal has that type, names only palette colours, and every amount is the interpolated target. A clear_dual goal has two targets with one amount and, on a palette without repeats, two different colours. |
| LevelGenerator.GoalAmountInRange | src/utils/levelGenerator.js:77-102 | For a level inside its tier's range, every amount lies in the target range of its goal type. |
| LevelGenerator.GoalTypeRotates | src/utils/levelGenerator.js:72-73 | From the tier's first level on, the goal type repeats with period equal to the number of goal types. |
| LevelGenerator.RemainderOfShift | src/utils/levelGenerator.js:72 | Proof helper: adding the divisor keeps the remainder. |
| LevelGenerator.MultipleAtLeast | src/utils/levelGenerator.js:72 | Proof helper: a positive multiple is at least the divisor. |
| LevelGenerator.GoalSucceedsIff | src/utils/levelGenerator.js:72-120 | For a level's own tier and palette, generateGoal throws exactly for levels below 1 whose distance to 51 is not a multiple of 3. |
| LevelGenerator.CalculateMoveLimit | src/utils/levelGenerator.js:127-135 | No limit exactly when the tier has none. Inside the tier the limit lies between the pair's two numbers. |
| LevelGenerator.MoveLimitRises | src/utils/levelGenerator.js:131-134 | Within a tier the move limit never falls as the level rises, because the pair is read as [max, min] but stored low first. |
| LevelGenerator.MoveLimitEnds | src/utils/levelGenerator.js:127-135 | The limit is the pair's first number at the tier's first level and its second number at the last. |
| LevelGenerator.MoveLimitsOfTiers | src/utils/levelGenerator.js:127-135 | Beginner has no limit. Intermediate goes from 35 to 45, Advanced from 28 to 35 and Expert from 22 to 28. |
| LevelGenerator.ValidateGridForGoal | src/utils/levelGenerator.js:140-167 | clear_color needs amount + 10 crystals of its colour, clear_dual that for each target, and make_matches at least as many colours on the board as the palette has. |
| LevelGenerator.ColoursPresent | src/utils/levelGenerator.js:157-162 | A colour is present exactly when some cell of the board holds a crystal of it. |
| LevelGenerator.FlattenCells | src/utils/levelGenerator.js:56-60 | A board of palette colours flattens to palette colours. |
| LevelGenerator.DistinctSetSize | src/utils/levelGenerator.js:160-161 | A sequence without repeats has as many different colours as elements. |
| LevelGenerator.MatchGoalFitsIffAllPresent | src/utils/levelGenerator.js:157-162 | On a board of palette colours, the make_matches check passes exactly when every palette colour is present. |
| LevelGenerator.GridSizeOf | src/utils/levelGenerator.js:177-180 | The fixed grid size, or one of the listed sizes. |
| LevelGenerator.GenerateLevel | src/utils/levelGenerator.js:172-206 | Succeeds exactly when the goal does. Then it has the level, its tier, the tier palette, the goal and the move limit, and a square board of palette colours with no match. At most 10 boards are built, and the board fits the goal unless all 10 were used. |
| LevelGenerator.BuildGrid | src/utils/levelGenerator.js:190-193 | One pass of the do-while gives a board with no match, and its validation against the goal. |
| GameState.InitialProgress | src/hooks/useGameState.js:34-45 | One key per tracked colour, or `matches`, each at 0. |
| GameState.StartingProgress | src/hooks/useGameState.js:34-45 | loadLevel's progress initialisation, including the forEach over the targets, is the initial progress. |
| GameState.AddTargetsGrows | src/hooks/useGameState.js:86-90 | The forEach keeps every key and adds the targets' colours. No value falls, and other keys keep their values. |
| GameState.AddTargetsElsewhere | src/hooks/useGameState.js:86-90 | A colour no target names keeps its value. |
| GameState.AddTargetsExact | src/hooks/useGameState.js:86-90 | With targets of different colours, each target's value grows by exactly what was cleared of its colour. |
| GameState.AddTargets | src/hooks/useGameState.js:86-90 | The forEach keeps every key without lowering its value, and every target's colour has a key afterwards. |
| GameState.AddTargetsStep | src/hooks/useGameState.js:87-89 | Proof helper: one more target adds what was cleared of its colour. |
| GameState.ProgressAfter | src/hooks/useGameState.js:77-93 | The new progress keeps every key without lowering it and has a key for everything the goal tracks. A complete goal stays complete. |
| GameState.ProgressOnlyGrows | src/hooks/useGameState.js:77-93 | updateProgress changes only the goal's keys, adding them when missing, and never lowers a value. |
| GameState.CompletionMonotonic | src/hooks/useGameState.js:54-74 | A complete goal stays complete while values do not fall. |
| GameState.NotCompleteAtStart | src/hooks/useGameState.js:54-74 | A goal asking for positive amounts is not complete on the initial progress. |
| GameState.GoalComplete | src/hooks/useGameState.js:54-74 | A complete goal has a key for everything it tracks: a missing key never counts as reached. |
| GameState.AddProgress | src/hooks/useGameState.js:80-93 | The new progress is what the goal's rule gives: cleared counts added to the goal's colours, or the cascade count added to `matches`. |
| GameState.ChangedCells | src/hooks/useGameState.js:172-180 | newCells lists exactly the positions where the final board differs from the swapped one, each once, in row-major order. |
| GameState.LoadedState | src/hooks/useGameState.js:26-46 | A load succeeds exactly when the goal does. It then gives the new level and its board, move count 0, no selection, not complete, and the initial progress; everything else is kept. |
| GameState.MovedState | src/hooks/useGameState.js:152-183 | A matching swap: the board is swapped, one more move, and the cascades' result. Once they settle there is no match left, the combo grows, and newCells and progress are updated. |
| GameState.TargetsPositive | src/constants/tiers.js:2-52 | Every tier asks for a positive amount of each goal type. |
| GameState.FreshGoalNotComplete | src/hooks/useGameState.js:34-45 | For levels 1 to 999 the generated goal tracks something and is not complete on its initial progress. |
| GameState.FreshLevelNotComplete | src/hooks/useGameState.js:26-46 | A freshly loaded level from 1 to 999 is not complete. |
| GameState.SwapKeepsGains | src/hooks/useGameState.js:131-196 | A swap never takes anything back. The level stays, the move count does not fall, a complete level stays complete, no progress value falls, and the board keeps its size. |
| GameState.GameSession.constructor | src/hooks/useGameState.js:8-23 | The initial values of the state cells. |
| GameState.GameSession.LoadLevel | src/hooks/useGameState.js:26-46 | The new state is the loaded state when the goal succeeds; otherwise nothing changes. |
| GameState.GameSession.SetState | src/hooks/useGameState.js:28-44 | The fields take the snapshot's values. |
| GameState.GameSession.UpdateProgress | src/hooks/useGameState.js:77-102 | Without a level nothing changes. Otherwise the progress follows the goal's rule, and completion becomes true once the goal is met and then stays true. |
| GameState.GameSession.AttemptSwap | src/hooks/useGameState.js:131-196 | Nothing changes without a level or when the swapped board has no match (the grid and move count are kept). Otherwise the move is applied as MovedState states. |
| GameState.GameSession.HandleCellClick | src/hooks/useGameState.js:105-128 | Ignored once complete. With no selection it selects the cell; on the same cell it deselects; on another non-adjacent cell it selects that cell. On an adjacent cell it performs the swap and clears the selection. |
| GameState.GameSession.FinishAnimations | src/hooks/useGameState.js:185-194 | The later timers clear newCells and reset the cascade count shown; nothing else changes. |
| GameState.GameSession.NextLevel | src/hooks/useGameState.js:199-202 | Loads level number + 1; nothing happens without a level. |
| GameState.GameSession.RestartLevel | src/hooks/useGameState.js:205-208 | Reloads the same level number; nothing happens without a level. |
| Achievements.Or | src/utils/achievements.js:152-158 | The `or`-default read of a statistic: the stored value, unless it is absent or 0, in which case d. |
| Achievements.MergeRules | src/utils/achievements.js:146-159 | maxCascade and maxMatch are the maximum of the stored value (or 0) and the update, and bestMoves the minimum of the stored value (or 999) and the update. Every other updated field overwrites, untouched fields are kept, and no other key appears. |
| Achievements.MergeKeepsRecords | src/utils/achievements.js:151-159 | A stored cascade or match record never falls, and a positive bestMoves never rises. |
| Achievements.DefaultStats | src/utils/achievements.js:86-92 | No achievement's check holds on the default statistics. |
| Achievements.StatsOrDefault | src/utils/achievements.js:76-93 | The stored statistics when there are some; otherwise statistics on which no check holds. |
| Achievements.MergeStats | src/utils/achievements.js:146-159 | Every stored and every updated property is present afterwards. An updated property that no record rule covers takes the update's value, and a stored property nothing updates keeps its value. |
| Achievements.Ordinal | src/utils/achievements.js:2-73 | The position of an achievement in definition order. |
| Achievements.IdsDiffer | src/utils/achievements.js:4-67 | No two achievements share an id. |
| Achievements.StricterImpliesWeaker | src/utils/achievements.js:36-71 | Stats meeting EFFICIENT meet PERFECTIONIST, and stats meeting CASCADE_MASTER meet COMBO_KING. |
| Achievements.RecordChecksSurviveMerge | src/utils/achievements.js:8-71 | Once met, COMBO_KING, CASCADE_MASTER and MEGA_MATCH stay met after updateStats merges new cascade or match sizes, and PERFECTIONIST and EFFICIENT after it merges a positive move count. |
| Achievements.Unlockable | src/utils/achievements.js:131-136 | The eligible candidates, in their order: membership exactly for the eligible ones, and empty exactly when none is eligible. |
| Achievements.Eligible | src/utils/achievements.js:131-133 | An achievement is eligible exactly when its id is not yet unlocked and its check holds. |
| Achievements.NewlyUnlocked | src/utils/achievements.js:127-143 | Every achievement returned is not yet unlocked and passes its check, and at most all ten are returned. |
| Achievements.Ids | src/utils/achievements.js:134 | The ids of a sequence of achievements, position by position. |
| Achievements.IdsAppend | src/utils/achievements.js:134 | Proof helper: one more achievement appends its id. |
| Achievements.PushKeeps | src/utils/achievements.js:134 | Proof helper: pushing onto the list appends to what was pushed before. |
| Achievements.OrdinalOfPosition | src/utils/achievements.js:2-73 | Each position holds the achievement of that ordinal. |
| Achievements.DefinitionOrder | src/utils/achievements.js:131 | Object.values(ACHIEVEMENTS) lists every achievement once, in definition order. |
| Achievements.Listed | src/utils/achievements.js:2-73 | Every achievement is listed. |
| Achievements.AllListed | src/utils/achievements.js:131 | `Object.values(ACHIEVEMENTS)` leaves no achievement out. |
| Achievements.AllBefore | src/utils/achievements.js:131-136 | Filtering keeps a bound on the ordinals. |
| Achievements.UnlockableInOrder | src/utils/achievements.js:131-136 | Filtering candidates in definition order keeps that order. |
| Achievements.NewlyUnlockedExact | src/utils/achievements.js:127-143 | checkAchievements returns, in definition order, exactly the achievements whose id is not unlocked and whose check holds. |
| Achievements.CheckIdempotent | src/utils/achievements.js:127-143 | A second check with the same stats, after the first one's ids were added, unlocks nothing. |
| Achievements.DefaultsUnlockNothing | src/utils/achievements.js:86-92 | Under the default stats neither PERFECTIONIST nor EFFICIENT holds, and nothing unlocks. |
| Achievements.NextCandidate | src/utils/achievements.js:132-135 | The loop's test on one achievement is its eligibility, since the ids pushed so far are those of other achievements. |
| Achievements.UnlockPass | src/utils/achievements.js:129-136 | The loop returns the eligible achievements in order, and the list extended with their ids. |
| Achievements.CheckPass | src/utils/achievements.js:128-140 | The loop over all achievements gives NewlyUnlocked. When nothing unlocks, the list is what it was. |
| Achievements.AchievementStore.constructor | src/utils/achievements.js:76-115 | Nothing is stored yet. |
| Achievements.AchievementStore.CheckAchievements | src/utils/achievements.js:127-143 | Returns the newly unlocked achievements. The stored list only grows: the old ids are kept and the new ones appended. The stats are untouched. |
| Achievements.AchievementStore.UpdateStats | src/utils/achievements.js:146-163 | The merge of the stored stats (or the defaults) with the updates is saved, and then checked as CheckAchievements does. |

## Left out

- Rendering, animation and React: the components, `App.jsx`, the `isProcessing`, `invalidSwap` and
  `matchingCells` flags, and `useCallback` memoisation. `handleCellClick`'s dependency list omits `attemptSwap`;
  the model always uses the current state, so that stale closure is not captured.
- Timers in `attemptSwap`: the 800 ms, 400 ms and 1500 ms steps are collapsed. `AttemptSwap` runs the cascades at
  once, and `FinishAnimations` stands for the later timers. Clicks that arrive while timers are pending are not
  modelled.
- `src/utils/storage.js` is not part of this model. Local storage in `achievements.js` is two class fields;
  JSON parse errors, storage failures and `console.error` are not modelled.
- Randomness is a supplied draw or sequence of draws. The distribution of `Math.random`, and the bias of the
  `sort(() => Math.random() - 0.5)` shuffle, are not modelled: the shuffle is some permutation chosen by the draws.
- Floating point: the progress through a tier is an exact rational and `Math.floor` is `Floor`, assuming
  JavaScript's rounding agrees on these small values. `size * size * 0.2` is taken as `size * size / 5` rounded
  down.
- Gravity.ProcessCascades: the source loop has no bound. The model runs at most `fuel` rounds, and returns `None`
  if the board still matches after them. Termination of the source loop is not claimed.
- `totalMatches` in `processCascades` is never returned and is not modelled.
- The order in which `findMatches` lists positions, and the `"row,col"` string keys, are not modelled: matches
  are a set of positions. `countMatches` and `removeMatches` do not depend on that order.
- Display text: goal descriptions, tier names (kept only as data), achievement titles, icons and descriptions,
  and the text of the thrown error.
- `console.warn` in `generateGrid` is not modelled.
- Tiers.ProgressInTier: requires a range of more than one level. The source would divide by zero; no tier has
  such a range.
- LevelGenerator.GenerateGoal: requires a palette of at least two colours, which every tier's palette has. The
  source's `tier` parameter is unused and dropped. The `default` throw for an unknown goal type is the `Failure`
  for an index outside the goal list, the only way a goal type can be missing here.
- LevelGenerator.CalculateMoveLimit: requires a range of more than one level, as for ProgressInTier.
- LevelGenerator.ValidateGridForGoal: the source's `default: return true` branch cannot be reached with the
  three goal kinds of the model.
- GridHelpers.RandomColor: requires a non-empty palette; the source would return `undefined`.
- Gravity.ApplyGravity: requires a non-empty palette, as refills would otherwise be `undefined`. The
  `availableColors` argument that `ensureValidGrid` receives is unused there and is not modelled.
- LevelGenerator.GenerateGrid: requires a non-empty palette, for the same reason.
- GridHelpers.SwapCells, GridHelpers.WouldCreateMatch and MatchDetector.RemoveMatches require positions on the
  board. Every caller passes positions on the board.
- GameState.GameSession.HandleCellClick and GameState.GameSession.AttemptSwap require a clicked position on the
  board, which the board view always gives. The session's invariant also requires a loaded level to have a
  non-empty palette, which every tier has.
- The move limit is computed, but `attemptSwap` never consults it: play continues past the limit, as in the
  source.
- Achievements: statistics values are integers. JavaScript numbers, `NaN` and non-numeric JSON values are not
  modelled.
- GameState.GoalComplete: progress values are integers, and the `default: return false` branch of
  `checkGoalCompletion` cannot be reached with the three goal kinds of the model.

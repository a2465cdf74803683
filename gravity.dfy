/**
 * Gravity and the cascade resolver (src/utils/gravity.js, applyGravity and processCascades).
 *
 * applyGravity collects each column's crystals from the top down and writes them back from
 * the bottom up, so the survivors end up bottom-aligned in reverse order; the cells left
 * above them are refilled with random palette colours. processCascades repeats
 * find, tally, remove and gravity until the grid holds no match.
 */
module Gravity {
  import opened Wrappers
  import opened Colors
  import opened GridHelpers
  import opened MatchDetector

  /** The draw behind the random colour that refills position p (getRandomColor's Math.random). */
  type Refill = Pos -> nat

  /** The crystals of a column, top to bottom, in the order the collecting loop pushes them. */
  function Survivors(column: seq<Cell>): (crystals: seq<Cell>)
    ensures |crystals| <= |column|
    ensures forall i :: 0 <= i < |crystals| ==> crystals[i] != Empty
    decreases |column|
  {
    if column == [] then []
    else
      var last := column[|column| - 1];
      Survivors(column[..|column| - 1]) + (if last == Empty then [] else [last])
  }

  /** The survivors are the crystals of the column: the same cells, each as often, and no empty one. */
  lemma {:induction false} SurvivorsAreTheCrystals(column: seq<Cell>)
    ensures multiset(Survivors(column)) == multiset(column)[Empty := 0]
    decreases |column|
  {
    if column != [] {
      var init, last := column[..|column| - 1], column[|column| - 1];
      assert column == init + [last];
      SurvivorsAreTheCrystals(init);
    }
  }

  /** A column without empty cells survives whole, in order. */
  lemma {:induction false} FullColumnSurvives(column: seq<Cell>)
    requires forall i :: 0 <= i < |column| ==> column[i] != Empty
    ensures Survivors(column) == column
    decreases |column|
  {
    if column != [] {
      var init := column[..|column| - 1];
      FullColumnSurvives(init);
      assert column == init + [column[|column| - 1]];
    }
  }

  /** The sequence read from the back. */
  function Reversed(s: seq<Cell>): (r: seq<Cell>)
    ensures |r| == |s|
    ensures forall i :: 0 <= i < |s| ==> r[i] == s[|s| - 1 - i]
  {
    seq(|s|, i requires 0 <= i < |s| => s[|s| - 1 - i])
  }

  /** Reading a sequence from the back keeps its cells. */
  lemma {:induction false} ReversedSameCells(s: seq<Cell>)
    ensures multiset(Reversed(s)) == multiset(s)
    decreases |s|
  {
    if s != [] {
      var t := s[1..];
      ReversedSameCells(t);
      assert s == [s[0]] + t;
      assert Reversed(s) == Reversed(t) + [s[0]];
    }
  }

  /** The rows of a grid in reverse order. */
  function UpsideDown(g: Grid): (h: Grid)
    requires IsSquare(g)
    ensures IsSquare(h) && |h| == |g|
    ensures forall r :: 0 <= r < |g| ==> h[r] == g[|g| - 1 - r]
  {
    seq(|g|, r requires 0 <= r < |g| => g[|g| - 1 - r])
  }

  /** The fill loop of applyGravity over the top n rows of column c, walking up from row n-1: each row takes
      the next crystal while there is one, and a random palette colour after that. */
  function Fill(crystals: seq<Cell>, c: int, palette: seq<Color>, refill: Refill, n: nat): (column: seq<Cell>)
    requires |palette| > 0
    ensures |column| == n
    decreases n
  {
    if n == 0 then []
    else if |crystals| > 0 then Fill(crystals[1..], c, palette, refill, n - 1) + [crystals[0]]
    else Fill([], c, palette, refill, n - 1) + [Crystal(RandomColor(palette, refill(Pos(n - 1, c))))]
  }

  /** Row r of the filled rows: with k crystals, the bottom k rows take crystals[n-1-r], so the first crystal
      lands in the bottom row, and the rows above take their own random colour. */
  lemma {:induction false} FillCells(crystals: seq<Cell>, c: int, palette: seq<Color>, refill: Refill, n: nat)
    requires |palette| > 0 && |crystals| <= n
    ensures var column := Fill(crystals, c, palette, refill, n);
      && |column| == n
      && (forall r :: n - |crystals| <= r < n ==> column[r] == crystals[n - 1 - r])
      && (forall r :: 0 <= r < n - |crystals| ==> column[r] == Crystal(RandomColor(palette, refill(Pos(r, c)))))
    decreases n
  {
    if n > 0 {
      if |crystals| > 0 {
        FillCells(crystals[1..], c, palette, refill, n - 1);
      } else {
        FillCells([], c, palette, refill, n - 1);
      }
    }
  }

  /** Column c after gravity: the survivors, collected top-down, filled in from the bottom row up. */
  function FallenColumn(column: seq<Cell>, c: int, palette: seq<Color>, refill: Refill): (fallen: seq<Cell>)
    requires |palette| > 0
  {
    Fill(Survivors(column), c, palette, refill, |column|)
  }

  /** After gravity no cell of a column is empty: with k survivors, the rows above the bottom k
      hold palette colours. */
  lemma FallenColumnFilled(column: seq<Cell>, c: int, palette: seq<Color>, refill: Refill)
    requires |palette| > 0
    ensures var fallen, k, n := FallenColumn(column, c, palette, refill), |Survivors(column)|, |column|;
      && (forall r :: 0 <= r < n ==> fallen[r] != Empty)
      && (forall r :: 0 <= r < n - k ==> fallen[r].color in palette)
  {
    FillCells(Survivors(column), c, palette, refill, |column|);
  }

  /** The bottom rows of the fill hold the crystals in reverse: the first crystal lands lowest. */
  lemma {:induction false} FillBottom(crystals: seq<Cell>, c: int, palette: seq<Color>, refill: Refill, n: nat)
    requires |palette| > 0 && |crystals| <= n
    ensures Fill(crystals, c, palette, refill, n)[n - |crystals|..] == Reversed(crystals)
    decreases n
  {
    if n > 0 && |crystals| > 0 {
      var rest, k := crystals[1..], |crystals|;
      var above := Fill(rest, c, palette, refill, n - 1);
      FillBottom(rest, c, palette, refill, n - 1);
      assert Fill(crystals, c, palette, refill, n)[n - k..] == above[n - k..] + [crystals[0]];
      assert Reversed(crystals) == Reversed(rest) + [crystals[0]];
    }
  }

  /** Gravity keeps a column's crystals: with k survivors, the bottom k rows are the survivors read
      from the last up, holding the same crystals, and a column without empty cells is turned upside down. */
  lemma FallenColumnKeepsCrystals(column: seq<Cell>, c: int, palette: seq<Color>, refill: Refill)
    requires |palette| > 0
    ensures var fallen, k, n := FallenColumn(column, c, palette, refill), |Survivors(column)|, |column|;
      && fallen[n - k..] == Reversed(Survivors(column))
      && multiset(fallen[n - k..]) == multiset(column)[Empty := 0]
      && ((forall i :: 0 <= i < n ==> column[i] != Empty) ==> fallen == Reversed(column))
  {
    var crystals := Survivors(column);
    FillBottom(crystals, c, palette, refill, |column|);
    ReversedSameCells(crystals);
    SurvivorsAreTheCrystals(column);
    if forall i :: 0 <= i < |column| ==> column[i] != Empty {
      FullColumnSurvives(column);
    }
  }

  /** The grid with column c fallen and every other column as it was. */
  function Settle(h: Grid, c: int, palette: seq<Color>, refill: Refill): (settled: Grid)
    requires IsSquare(h) && 0 <= c < |h| && |palette| > 0
    ensures IsSquare(settled) && |settled| == |h|
  {
    var n, fallen := |h|, FallenColumn(Column(h, c), c, palette, refill);
    seq(n, r requires 0 <= r < n => seq(n, j requires 0 <= j < n => if j == c then fallen[r] else h[r][j]))
  }

  /** applyGravity's column loop after its first c passes: columns 0 to c-1 have fallen, left to right. */
  function GravityUpTo(h: Grid, c: nat, palette: seq<Color>, refill: Refill): (settled: Grid)
    requires IsSquare(h) && c <= |h| && |palette| > 0
    ensures IsSquare(settled) && |settled| == |h|
  {
    if c == 0 then h else Settle(GravityUpTo(h, c - 1, palette, refill), c - 1, palette, refill)
  }

  /** applyGravity as a whole: every column falls, left to right. */
  function AfterGravity(g: Grid, palette: seq<Color>, refill: Refill): (h: Grid)
    requires IsSquare(g) && |palette| > 0
    ensures IsSquare(h) && |h| == |g|
  {
    GravityUpTo(g, |g|, palette, refill)
  }

  /** After the first c passes of the column loop, each of columns 0 to c-1 is its own column of h fallen,
      and the others are as in h: columns fall independently of each other. */
  lemma {:induction false} GravityUpToCell(h: Grid, c: nat, palette: seq<Color>, refill: Refill, r: int, j: int)
    requires IsSquare(h) && c <= |h| && |palette| > 0 && 0 <= r < |h| && 0 <= j < |h|
    ensures GravityUpTo(h, c, palette, refill)[r][j] ==
      if j < c then FallenColumn(Column(h, j), j, palette, refill)[r] else h[r][j]
    decreases c, 0
  {
    if c > 0 {
      var before := GravityUpTo(h, c - 1, palette, refill);
      SettleCell(before, c - 1, palette, refill, r, j);
      if j == c - 1 {
        UntouchedColumn(h, c - 1, palette, refill, j);
      } else {
        GravityUpToCell(h, c - 1, palette, refill, r, j);
      }
    }
  }

  /** A column the loop has not reached yet is still the input's column. */
  lemma {:induction false} UntouchedColumn(h: Grid, c: nat, palette: seq<Color>, refill: Refill, j: int)
    requires IsSquare(h) && c <= j < |h| && |palette| > 0
    ensures Column(GravityUpTo(h, c, palette, refill), j) == Column(h, j)
    decreases c, 1
  {
    forall i | 0 <= i < |h|
      ensures GravityUpTo(h, c, palette, refill)[i][j] == h[i][j]
    {
      GravityUpToCell(h, c, palette, refill, i, j);
    }
  }

  /** One cell after column c falls: a cell of column c is the fallen column's, any other cell is unchanged. */
  lemma SettleCell(h: Grid, c: int, palette: seq<Color>, refill: Refill, r: int, j: int)
    requires IsSquare(h) && 0 <= c < |h| && |palette| > 0 && 0 <= r < |h| && 0 <= j < |h|
    ensures Settle(h, c, palette, refill)[r][j] == if j == c then FallenColumn(Column(h, c), c, palette, refill)[r] else h[r][j]
  {
  }

  /** Each cell of the grid after gravity is that cell of its own fallen column. */
  lemma GravityCells(g: Grid, palette: seq<Color>, refill: Refill)
    requires IsSquare(g) && |palette| > 0
    ensures forall r, c :: 0 <= r < |g| && 0 <= c < |g| ==>
      AfterGravity(g, palette, refill)[r][c] == FallenColumn(Column(g, c), c, palette, refill)[r]
  {
    forall r, c | 0 <= r < |g| && 0 <= c < |g|
      ensures AfterGravity(g, palette, refill)[r][c] == FallenColumn(Column(g, c), c, palette, refill)[r]
    {
      GravityUpToCell(g, |g|, palette, refill, r, c);
    }
  }

  /** Gravity treats the columns independently: what column c becomes depends on column c alone. */
  lemma ColumnsFallIndependently(g: Grid, h: Grid, palette: seq<Color>, refill: Refill, c: int)
    requires IsSquare(g) && IsSquare(h) && |g| == |h| && |palette| > 0 && 0 <= c < |g|
    requires Column(g, c) == Column(h, c)
    ensures Column(AfterGravity(g, palette, refill), c) == Column(AfterGravity(h, palette, refill), c)
  {
    GravityCells(g, palette, refill);
    GravityCells(h, palette, refill);
  }

  /** After gravity the grid has no empty cell, and a grid without empty cells comes out upside down:
      row r of the result is row size-1-r of the input. */
  lemma GravityFillsAndFlips(g: Grid, palette: seq<Color>, refill: Refill)
    requires IsSquare(g) && |palette| > 0
    ensures var h := AfterGravity(g, palette, refill);
      forall r, c :: 0 <= r < |g| && 0 <= c < |g| ==> h[r][c] != Empty
    ensures (forall r, c :: 0 <= r < |g| && 0 <= c < |g| ==> g[r][c] != Empty) ==>
      AfterGravity(g, palette, refill) == UpsideDown(g)
  {
    var h, n := AfterGravity(g, palette, refill), |g|;
    GravityCells(g, palette, refill);
    forall r, c | 0 <= r < n && 0 <= c < n
      ensures h[r][c] != Empty
    {
      FallenColumnFilled(Column(g, c), c, palette, refill);
    }
    if forall r, c :: 0 <= r < n && 0 <= c < n ==> g[r][c] != Empty {
      forall r, c | 0 <= r < n && 0 <= c < n
        ensures h[r][c] == g[n - 1 - r][c]
      {
        FallenColumnKeepsCrystals(Column(g, c), c, palette, refill);
      }
      GridExt(h, UpsideDown(g));
    }
  }

  /** One pass of applyGravity's column loop: collect the crystals top-down, clear the column,
      then write the crystals from the bottom row up and refill the rest. Other columns are untouched. */
  method SettleColumn(grid: Grid, col: int, palette: seq<Color>, refill: Refill) returns (newGrid: Grid)
    requires IsSquare(grid) && 0 <= col < |grid| && |palette| > 0
    ensures newGrid == Settle(grid, col, palette, refill)
  {
    var size := |grid|;
    newGrid := grid;
    ghost var column := Column(grid, col);
    var crystals: seq<Cell> := [];
    for row := 0 to size
      invariant crystals == Survivors(column[..row])
    {
      assert column[..row + 1][..row] == column[..row];
      if newGrid[row][col] != Empty {
        crystals := crystals + [newGrid[row][col]];
      }
    }
    assert column[..size] == column;
    FillCells(crystals, col, palette, refill, size);
    for row := 0 to size
      invariant IsSquare(newGrid) && |newGrid| == size
      invariant forall r, c :: 0 <= r < size && 0 <= c < size ==>
                  newGrid[r][c] == if c == col && r < row then Empty else grid[r][c]
    {
      newGrid := newGrid[row := newGrid[row][col := Empty]];
    }
    ghost var fallen := FallenColumn(column, col, palette, refill);
    var crystalIndex := 0;
    var row := size - 1;
    while row >= 0
      invariant -1 <= row < size
      invariant crystalIndex == if size - 1 - row < |crystals| then size - 1 - row else |crystals|
      invariant IsSquare(newGrid) && |newGrid| == size
      invariant forall r, c :: 0 <= r < size && 0 <= c < size ==>
                  newGrid[r][c] == if c == col then (if r > row then fallen[r] else Empty) else grid[r][c]
    {
      if crystalIndex < |crystals| {
        newGrid := newGrid[row := newGrid[row][col := crystals[crystalIndex]]];
        crystalIndex := crystalIndex + 1;
      } else {
        newGrid := newGrid[row := newGrid[row][col := Crystal(RandomColor(palette, refill(Pos(row, col))))]];
      }
      row := row - 1;
    }
    GridExt(newGrid, Settle(grid, col, palette, refill));
  }

  /** applyGravity: a copy of the grid in which every column has fallen. */
  method ApplyGravity(grid: Grid, palette: seq<Color>, refill: Refill) returns (newGrid: Grid)
    requires IsSquare(grid) && |palette| > 0
    ensures newGrid == AfterGravity(grid, palette, refill)
  {
    var size := |grid|;
    newGrid := CloneGrid(grid);
    for col := 0 to size
      invariant IsSquare(newGrid) && |newGrid| == size
      invariant newGrid == GravityUpTo(grid, col, palette, refill)
    {
      newGrid := SettleColumn(newGrid, col, palette, refill);
    }
  }

  /* processCascades */

  /** The sum of two colour tallies, key by key: `totalCleared[color] = (totalCleared[color] || 0) + cleared[color]`
      for each key of cleared. */
  function AddCounts(total: map<Color, nat>, cleared: map<Color, nat>): (sum: map<Color, nat>)
    ensures forall c :: c in sum <==> c in total || c in cleared
    ensures forall c :: Get(sum, c) == Get(total, c) + Get(cleared, c)
  {
    map c | c in total.Keys + cleared.Keys :: Get(total, c) + Get(cleared, c)
  }

  /** Two tallies with the same keys and the same counts are the same map. */
  lemma TallyExt(a: map<Color, nat>, b: map<Color, nat>)
    requires forall c :: c in a <==> c in b
    requires forall c :: Get(a, c) == Get(b, c)
    ensures a == b
  {
    forall c | c in a
      ensures a[c] == b[c]
    {
      assert Get(a, c) == Get(b, c);
    }
  }

  /** Adding an empty tally, on either side, changes nothing. */
  lemma AddNothing(a: map<Color, nat>)
    ensures AddCounts(a, map[]) == a && AddCounts(map[], a) == a
  {
    TallyExt(AddCounts(a, map[]), a);
    TallyExt(AddCounts(map[], a), a);
  }

  /** The grouping of additions does not matter. */
  lemma AddCountsAssociative(a: map<Color, nat>, b: map<Color, nat>, c: map<Color, nat>)
    ensures AddCounts(AddCounts(a, b), c) == AddCounts(a, AddCounts(b, c))
  {
    TallyExt(AddCounts(AddCounts(a, b), c), AddCounts(a, AddCounts(b, c)));
  }

  /** The totals add up. */
  lemma AddCountsTotal(a: map<Color, nat>, b: map<Color, nat>)
    ensures Total(AddCounts(a, b)) == Total(a) + Total(b)
  {
  }

  /** The counts of m for the colours in done only. */
  function Part(m: map<Color, nat>, done: set<Color>): map<Color, nat>
  {
    map c | c in m.Keys * done :: m[c]
  }

  /** None of the counts, and all of them. */
  lemma PartEnds(m: map<Color, nat>)
    ensures Part(m, {}) == map[]
    ensures Part(m, m.Keys) == m
  {
  }

  /** Adding one more key of cleared into the running sum, as one forEach step does. */
  lemma AddOneKey(base: map<Color, nat>, cleared: map<Color, nat>, done: set<Color>, color: Color, total: map<Color, nat>)
    requires color in cleared && color !in done
    requires total == AddCounts(base, Part(cleared, done))
    ensures total[color := Get(total, color) + cleared[color]] == AddCounts(base, Part(cleared, done + {color}))
  {
    TallyExt(AddCounts(base, Part(cleared, done + {color})), total[color := Get(total, color) + cleared[color]]);
  }

  /** The forEach over the keys of clearedColors, adding each count into totalCleared. */
  method AccumulateCleared(totalCleared: map<Color, nat>, clearedColors: map<Color, nat>) returns (total: map<Color, nat>)
    ensures total == AddCounts(totalCleared, clearedColors)
  {
    total := totalCleared;
    var keys := clearedColors.Keys;
    ghost var done: set<Color> := {};
    PartEnds(clearedColors);
    AddNothing(totalCleared);
    while keys != {}
      invariant keys !! done && keys + done == clearedColors.Keys
      invariant total == AddCounts(totalCleared, Part(clearedColors, done))
      decreases |keys|
    {
      var color :| color in keys;
      AddOneKey(totalCleared, clearedColors, done, color, total);
      total := total[color := Get(total, color) + clearedColors[color]];
      keys := keys - {color};
      done := done + {color};
    }
    assert done == clearedColors.Keys;
  }

  /** One round of the cascade loop: remove every match, then let the crystals fall. */
  function Round(g: Grid, palette: seq<Color>, refill: Refill): (h: Grid)
    requires IsSquare(g) && |palette| > 0
    ensures IsSquare(h) && |h| == |g|
  {
    AfterGravity(Removed(g, MatchSet(g)), palette, refill)
  }

  /** What processCascades returns: the final grid, the number of rounds and the colours cleared. */
  datatype CascadeResult = CascadeResult(grid: Grid, cascadeCount: nat, totalCleared: map<Color, nat>)

  /** The cascades that follow from grid g, round k on: none if g holds no match; otherwise one round
      (its refill colours drawn from refills(k)), its colours tallied, and the cascades of the grid it leaves.
      At most fuel rounds are run; None means the grid had not settled by then. */
  function Cascade(g: Grid, palette: seq<Color>, refills: nat -> Refill, k: nat, fuel: nat): (result: Option<CascadeResult>)
    requires IsSquare(g) && |palette| > 0
    ensures result.Some? ==> IsSquare(result.value.grid) && |result.value.grid| == |g|
    ensures result.Some? ==> MatchSet(result.value.grid) == {} && result.value.cascadeCount <= fuel
    ensures MatchSet(g) == {} <==> result.Some? && result.value.cascadeCount == 0
    decreases fuel
  {
    if MatchSet(g) == {} then Some(CascadeResult(g, 0, map[]))
    else if fuel == 0 then None
    else Then(ColourTally(g, MatchSet(g)), Cascade(Round(g, palette, refills(k)), palette, refills, k + 1, fuel - 1))
  }

  /** One round before a cascade result: one more round, and its tally added in front. */
  function Then(tally: map<Color, nat>, rest: Option<CascadeResult>): (result: Option<CascadeResult>)
    ensures result.Some? <==> rest.Some?
    ensures result.Some? ==> result.value.grid == rest.value.grid && result.value.cascadeCount == rest.value.cascadeCount + 1
    ensures result.Some? ==> forall c :: Get(result.value.totalCleared, c) == Get(tally, c) + Get(rest.value.totalCleared, c)
  {
    match rest
    case None => None
    case Some(r) => Some(CascadeResult(r.grid, r.cascadeCount + 1, AddCounts(tally, r.totalCleared)))
  }

  /** Seen from no rounds back with nothing tallied, a result is itself. */
  lemma AfterNothing(result: Option<CascadeResult>)
    ensures After(0, map[], result) == result
  {
    if result.Some? {
      AddNothing(result.value.totalCleared);
    }
  }

  lemma AfterThen(n: nat, cleared: map<Color, nat>, tally: map<Color, nat>, rest: Option<CascadeResult>)
    ensures After(n, cleared, Then(tally, rest)) == After(n + 1, AddCounts(cleared, tally), rest)
  {
    if rest.Some? {
      AddCountsAssociative(cleared, tally, rest.value.totalCleared);
    }
  }

  /** A cascade result seen from further back: n rounds earlier, with `cleared` already tallied. */
  function After(n: nat, cleared: map<Color, nat>, result: Option<CascadeResult>): Option<CascadeResult>
  {
    match result
    case None => None
    case Some(r) => Some(CascadeResult(r.grid, r.cascadeCount + n, AddCounts(cleared, r.totalCleared)))
  }

  /** One more round of the loop, seen from the start: the loop state (n rounds, `cleared` tallied, grid g with a match)
      and the state after the round describe the same cascade. */
  lemma CascadeStep(g: Grid, palette: seq<Color>, refills: nat -> Refill, n: nat, fuel: nat)
    requires IsSquare(g) && |palette| > 0 && MatchSet(g) != {} && fuel > 0
    ensures Cascade(g, palette, refills, n, fuel) ==
      Then(ColourTally(g, MatchSet(g)), Cascade(Round(g, palette, refills(n)), palette, refills, n + 1, fuel - 1))
  {
  }

  /** A round leaves no empty cell behind. */
  lemma RoundFills(g: Grid, palette: seq<Color>, refill: Refill)
    requires IsSquare(g) && |palette| > 0
    ensures var h := Round(g, palette, refill);
      forall r, c :: 0 <= r < |h| && 0 <= c < |h| ==> h[r][c] != Empty
  {
    GravityFillsAndFlips(Removed(g, MatchSet(g)), palette, refill);
  }

  /** The body of processCascades' loop once matches were found: tally their colours into totalCleared,
      remove them, and let the crystals fall. */
  method ClearRound(grid: Grid, matches: set<Pos>, totalCleared: map<Color, nat>, palette: seq<Color>, refill: Refill)
    returns (newGrid: Grid, newTotal: map<Color, nat>)
    requires IsSquare(grid) && |palette| > 0 && matches == MatchSet(grid)
    ensures newGrid == Round(grid, palette, refill)
    ensures newTotal == AddCounts(totalCleared, ColourTally(grid, matches))
    ensures forall i, j :: 0 <= i < |grid| && 0 <= j < |grid| ==> newGrid[i][j] != Empty
    ensures matches != {} ==> Total(newTotal) >= Total(totalCleared) + 3
  {
    var clearedColors := GetMatchedColors(grid, matches);
    newTotal := AccumulateCleared(totalCleared, clearedColors);
    newGrid := RemoveMatches(grid, matches);
    newGrid := ApplyGravity(newGrid, palette, refill);
    RoundFills(grid, palette, refill);
    ColourTallyTallies(grid, matches);
    AddCountsTotal(totalCleared, clearedColors);
    if matches != {} {
      MatchesHaveThree(grid);
    }
  }

  /** What holds of processCascades' variables at the head of its loop: the grid keeps its size, every round so far
      cleared at least three crystals, and finishing the cascade from here gives the cascade of the input. */
  ghost predicate LoopState(grid: Grid, palette: seq<Color>, refills: nat -> Refill, fuel: nat,
                            currentGrid: Grid, cascadeCount: nat, totalCleared: map<Color, nat>)
  {
    && IsSquare(grid) && |palette| > 0 && cascadeCount <= fuel
    && IsSquare(currentGrid) && |currentGrid| == |grid|
    && Total(totalCleared) >= 3 * cascadeCount
    && After(cascadeCount, totalCleared, Cascade(currentGrid, palette, refills, cascadeCount, fuel - cascadeCount))
       == Cascade(grid, palette, refills, 0, fuel)
  }

  /** The loop starts from the input grid, no round and nothing cleared. */
  lemma LoopStarts(grid: Grid, palette: seq<Color>, refills: nat -> Refill, fuel: nat)
    requires IsSquare(grid) && |palette| > 0
    ensures LoopState(grid, palette, refills, fuel, grid, 0, map[])
  {
    AfterNothing(Cascade(grid, palette, refills, 0, fuel));
  }

  /** The loop leaves on a grid without a match: the cascade of the input is what the loop has gathered. */
  lemma LoopEnds(grid: Grid, palette: seq<Color>, refills: nat -> Refill, fuel: nat,
                 currentGrid: Grid, cascadeCount: nat, totalCleared: map<Color, nat>)
    requires LoopState(grid, palette, refills, fuel, currentGrid, cascadeCount, totalCleared)
    requires MatchSet(currentGrid) == {}
    ensures Cascade(grid, palette, refills, 0, fuel) == Some(CascadeResult(currentGrid, cascadeCount, totalCleared))
  {
    assert Cascade(currentGrid, palette, refills, cascadeCount, fuel - cascadeCount) == Some(CascadeResult(currentGrid, 0, map[]));
    AddNothing(totalCleared);
  }

  /** The loop gives up on a grid that still holds a match once every round of fuel is spent. */
  lemma LoopGivesUp(grid: Grid, palette: seq<Color>, refills: nat -> Refill, fuel: nat,
                    currentGrid: Grid, cascadeCount: nat, totalCleared: map<Color, nat>)
    requires LoopState(grid, palette, refills, fuel, currentGrid, cascadeCount, totalCleared)
    requires MatchSet(currentGrid) != {} && cascadeCount == fuel
    ensures Cascade(grid, palette, refills, 0, fuel) == None
  {
  }

  /** One pass of processCascades' loop body once matches were found and a round is left. */
  method NextRound(grid: Grid, palette: seq<Color>, refills: nat -> Refill, fuel: nat,
                   currentGrid: Grid, cascadeCount: nat, totalCleared: map<Color, nat>, matches: set<Pos>)
    returns (newGrid: Grid, newTotal: map<Color, nat>)
    requires LoopState(grid, palette, refills, fuel, currentGrid, cascadeCount, totalCleared)
    requires matches == MatchSet(currentGrid) && matches != {} && cascadeCount < fuel
    ensures LoopState(grid, palette, refills, fuel, newGrid, cascadeCount + 1, newTotal)
  {
    CascadeStep(currentGrid, palette, refills, cascadeCount, fuel - cascadeCount);
    AfterThen(cascadeCount, totalCleared, ColourTally(currentGrid, matches),
      Cascade(Round(currentGrid, palette, refills(cascadeCount)), palette, refills, cascadeCount + 1, fuel - cascadeCount - 1));
    newGrid, newTotal := ClearRound(currentGrid, matches, totalCleared, palette, refills(cascadeCount));
  }

  /** processCascades: find, tally, remove and let fall until no match is left. The loop has no bound of its own;
      `fuel` bounds the rounds, and None means the grid had not settled after fuel rounds. The loop leaves only on a
      grid without a match; a grid without a match comes back as it is, with no round and nothing cleared; a round
      ran exactly when the input held a match, and every round cleared at least three crystals. */
  method ProcessCascades(grid: Grid, palette: seq<Color>, refills: nat -> Refill, fuel: nat)
    returns (result: Option<CascadeResult>)
    requires IsSquare(grid) && |palette| > 0
    ensures result == Cascade(grid, palette, refills, 0, fuel)
    ensures MatchSet(grid) == {} ==> result == Some(CascadeResult(grid, 0, map[]))
    ensures result.Some? ==> IsSquare(result.value.grid) && |result.value.grid| == |grid| && MatchSet(result.value.grid) == {}
    ensures result.Some? ==> result.value.cascadeCount <= fuel && Total(result.value.totalCleared) >= 3 * result.value.cascadeCount
    ensures result.Some? ==> (result.value.cascadeCount == 0 <==> MatchSet(grid) == {})
  {
    var currentGrid := grid;
    var totalCleared: map<Color, nat> := map[];
    var cascadeCount := 0;
    LoopStarts(grid, palette, refills, fuel);
    while true
      invariant LoopState(grid, palette, refills, fuel, currentGrid, cascadeCount, totalCleared)
      decreases fuel - cascadeCount
    {
      var matches := FindMatches(currentGrid);
      if |matches| == 0 {
        break;
      }
      if cascadeCount == fuel {
        LoopGivesUp(grid, palette, refills, fuel, currentGrid, cascadeCount, totalCleared);
        return None;
      }
      currentGrid, totalCleared := NextRound(grid, palette, refills, fuel, currentGrid, cascadeCount, totalCleared, matches);
      cascadeCount := cascadeCount + 1;
    }
    LoopEnds(grid, palette, refills, fuel, currentGrid, cascadeCount, totalCleared);
    return Some(CascadeResult(currentGrid, cascadeCount, totalCleared));
  }
}

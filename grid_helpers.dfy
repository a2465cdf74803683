/**
 * Grid primitives (src/utils/gridHelpers.js).
 *
 * A grid is a value: a sequence of rows, each a sequence of cells, where a cell is
 * either empty (JavaScript `null`) or holds a crystal of some colour. The JavaScript
 * helpers copy a grid before writing into the copy, so they never change their input;
 * with grids as values that holds by construction.
 */
module GridHelpers {
  import opened Colors

  datatype Cell = Empty | Crystal(color: Color)

  type Grid = seq<seq<Cell>>

  datatype Pos = Pos(row: int, col: int)

  /** The random source, as a supplied sequence of draws: draws(k) is the k-th number drawn.
      Any function stands for any sequence of draws; no distribution is modelled. */
  type Draws = nat -> nat

  /** The grids of the game are square: grid.length rows of grid.length cells. */
  predicate IsSquare(g: Grid)
  {
    forall r :: 0 <= r < |g| ==> |g[r]| == |g|
  }

  function Abs(x: int): nat
  {
    if x < 0 then -x else x
  }

  /** createEmptyGrid: size rows of size empty cells. */
  function CreateEmptyGrid(size: nat): (g: Grid)
    ensures IsSquare(g) && |g| == size
    ensures forall r, c :: 0 <= r < size && 0 <= c < size ==> g[r][c] == Empty
  {
    seq(size, _ => seq(size, _ => Empty))
  }

  /** getRandomColor: availableColors[floor(random * length)]; the draw d stands for the random number. */
  function RandomColor(palette: seq<Color>, d: nat): (c: Color)
    requires |palette| > 0
    ensures c in palette
  {
    palette[d % |palette|]
  }

  /** Every colour of the palette is a possible draw. */
  lemma RandomColorCovers(palette: seq<Color>, c: Color)
    requires c in palette
    ensures exists d: nat :: RandomColor(palette, d) == c
  {
    var i :| 0 <= i < |palette| && palette[i] == c;
    assert RandomColor(palette, i) == c;
  }

  /** isValidPosition. */
  predicate IsValidPosition(row: int, col: int, size: int)
  {
    row >= 0 && row < size && col >= 0 && col < size
  }

  /** A position inside the grid. */
  predicate InGrid(g: Grid, p: Pos)
  {
    IsValidPosition(p.row, p.col, |g|)
  }

  /** getCell: empty for any position outside the grid, the cell itself otherwise. */
  function GetCell(g: Grid, row: int, col: int): (cell: Cell)
    requires IsSquare(g)
    ensures !(0 <= row < |g| && 0 <= col < |g|) ==> cell == Empty
    ensures 0 <= row < |g| && 0 <= col < |g| ==> cell == g[row][col]
  {
    if !IsValidPosition(row, col, |g|) then Empty else g[row][col]
  }

  /** On a square grid, the positions isValidPosition accepts are exactly the indices of its cells, so every
      crystal getCell reads is at a valid position. */
  lemma ValidPositionIsCell(g: Grid, row: int, col: int)
    requires IsSquare(g)
    ensures IsValidPosition(row, col, |g|) <==> 0 <= row < |g| && 0 <= col < |g[row]|
    ensures GetCell(g, row, col) != Empty ==> IsValidPosition(row, col, |g|)
  {
  }

  /** cloneGrid: a row-by-row copy, equal in content to the original. */
  function CloneGrid(g: Grid): (copy: Grid)
    ensures copy == g
  {
    var copy := seq(|g|, r requires 0 <= r < |g| => seq(|g[r]|, c requires 0 <= c < |g[r]| => g[r][c]));
    assert forall r :: 0 <= r < |g| ==> copy[r] == g[r];
    copy
  }

  /** Column c of a square grid, top to bottom. */
  function Column(g: Grid, c: int): (column: seq<Cell>)
    requires IsSquare(g) && 0 <= c < |g|
    ensures |column| == |g|
    ensures forall r :: 0 <= r < |g| ==> column[r] == g[r][c]
  {
    seq(|g|, r requires 0 <= r < |g| => g[r][c])
  }

  /** The number of cells equal to x directly before index i of a line (walking towards index 0):
      all of them equal x, and the cell before them (if any) does not. */
  function RunBefore(line: seq<Cell>, i: int, x: Cell): (k: nat)
    requires 0 <= i <= |line|
    ensures k <= i
    ensures forall j :: i - k <= j < i ==> line[j] == x
    ensures i - k == 0 || line[i - k - 1] != x
    decreases i
  {
    if i > 0 && line[i - 1] == x then 1 + RunBefore(line, i - 1, x) else 0
  }

  /** The number of cells equal to x directly after index i of a line (walking towards the end):
      all of them equal x, and the cell after them (if any) does not. */
  function RunAfter(line: seq<Cell>, i: int, x: Cell): (k: nat)
    requires -1 <= i < |line|
    ensures i + 1 + k <= |line|
    ensures forall j :: i < j <= i + k ==> line[j] == x
    ensures i + 1 + k == |line| || line[i + 1 + k] != x
    decreases |line| - i
  {
    if i + 1 < |line| && line[i + 1] == x then 1 + RunAfter(line, i + 1, x) else 0
  }

  /** The two ensures clauses of RunBefore determine it: a stretch of x's closed on the left is its value. */
  lemma RunBeforeIs(line: seq<Cell>, i: int, x: Cell, k: nat)
    requires 0 <= k <= i <= |line|
    requires forall j :: i - k <= j < i ==> line[j] == x
    requires i - k == 0 || line[i - k - 1] != x
    ensures RunBefore(line, i, x) == k
  {
  }

  /** Likewise for RunAfter: a stretch of x's closed on the right is its value. */
  lemma RunAfterIs(line: seq<Cell>, i: int, x: Cell, k: nat)
    requires -1 <= i && i + 1 + k <= |line|
    requires forall j :: i < j <= i + k ==> line[j] == x
    requires i + 1 + k == |line| || line[i + 1 + k] != x
    ensures RunAfter(line, i, x) == k
  {
  }

  /** The length of the horizontal line of colour `color` that placing it at (row, col) would make. */
  function RowRunLength(g: Grid, row: int, col: int, color: Color): (k: nat)
    requires IsSquare(g) && 0 <= row < |g| && 0 <= col < |g|
    ensures 1 <= k <= |g|
  {
    1 + RunBefore(g[row], col, Crystal(color)) + RunAfter(g[row], col, Crystal(color))
  }

  /** The length of the vertical line of colour `color` that placing it at (row, col) would make. */
  function ColumnRunLength(g: Grid, row: int, col: int, color: Color): (k: nat)
    requires IsSquare(g) && 0 <= row < |g| && 0 <= col < |g|
    ensures 1 <= k <= |g|
  {
    var column := Column(g, col);
    1 + RunBefore(column, row, Crystal(color)) + RunAfter(column, row, Crystal(color))
  }

  /** The stretch of the colour found left and right of (row, col) by the horizontal loops is the whole run. */
  lemma HorizontalRun(g: Grid, row: int, col: int, color: Color, leftStop: int, rightStop: int)
    requires IsSquare(g) && 0 <= row < |g| && 0 <= col < |g|
    requires -1 <= leftStop < col < rightStop <= |g|
    requires forall j :: leftStop < j < col ==> g[row][j] == Crystal(color)
    requires forall j :: col < j < rightStop ==> g[row][j] == Crystal(color)
    requires leftStop == -1 || g[row][leftStop] != Crystal(color)
    requires rightStop == |g| || g[row][rightStop] != Crystal(color)
    ensures RowRunLength(g, row, col, color) == rightStop - leftStop - 1
  {
    RunBeforeIs(g[row], col, Crystal(color), col - 1 - leftStop);
    RunAfterIs(g[row], col, Crystal(color), rightStop - col - 1);
  }

  /** The stretch of the colour found above and below (row, col) by the vertical loops is the whole run. */
  lemma VerticalRun(g: Grid, row: int, col: int, color: Color, upStop: int, downStop: int)
    requires IsSquare(g) && 0 <= row < |g| && 0 <= col < |g|
    requires -1 <= upStop < row < downStop <= |g|
    requires forall j :: upStop < j < row ==> g[j][col] == Crystal(color)
    requires forall j :: row < j < downStop ==> g[j][col] == Crystal(color)
    requires upStop == -1 || g[upStop][col] != Crystal(color)
    requires downStop == |g| || g[downStop][col] != Crystal(color)
    ensures ColumnRunLength(g, row, col, color) == downStop - upStop - 1
  {
    var column := Column(g, col);
    RunBeforeIs(column, row, Crystal(color), row - 1 - upStop);
    RunAfterIs(column, row, Crystal(color), downStop - row - 1);
  }

  /** What wouldCreateMatch decides: with `color` placed at (row, col), the contiguous cells of that colour
      to the left and right, or above and below, make a line of at least three. The cell's own content
      plays no part. */
  predicate CreatesMatchAt(g: Grid, row: int, col: int, color: Color)
    requires IsSquare(g) && 0 <= row < |g| && 0 <= col < |g|
  {
    RowRunLength(g, row, col, color) >= 3 || ColumnRunLength(g, row, col, color) >= 3
  }

  /** wouldCreateMatch: count left, then right, then up, then down, as the source's four while loops do. */
  method WouldCreateMatch(g: Grid, row: int, col: int, color: Color) returns (creates: bool)
    requires IsSquare(g) && 0 <= row < |g| && 0 <= col < |g|
    ensures creates == CreatesMatchAt(g, row, col, color)
  {
    var x := Crystal(color);
    var n := |g|;
    var horizontalCount := 1;

    var checkCol := col - 1;
    while checkCol >= 0 && g[row][checkCol] == x
      invariant -1 <= checkCol < col
      invariant horizontalCount == col - checkCol
      invariant forall j :: checkCol < j < col ==> g[row][j] == x
      decreases checkCol
    {
      horizontalCount := horizontalCount + 1;
      checkCol := checkCol - 1;
    }
    var left := horizontalCount;
    var leftStop := checkCol;

    checkCol := col + 1;
    while checkCol < n && g[row][checkCol] == x
      invariant col < checkCol <= n
      invariant horizontalCount == left + (checkCol - col - 1)
      invariant forall j :: col < j < checkCol ==> g[row][j] == x
      decreases n - checkCol
    {
      horizontalCount := horizontalCount + 1;
      checkCol := checkCol + 1;
    }
    HorizontalRun(g, row, col, color, leftStop, checkCol);

    if horizontalCount >= 3 {
      return true;
    }

    var verticalCount := 1;

    var checkRow := row - 1;
    while checkRow >= 0 && g[checkRow][col] == x
      invariant -1 <= checkRow < row
      invariant verticalCount == row - checkRow
      invariant forall j :: checkRow < j < row ==> g[j][col] == x
      decreases checkRow
    {
      verticalCount := verticalCount + 1;
      checkRow := checkRow - 1;
    }
    var up := verticalCount;
    var upStop := checkRow;

    checkRow := row + 1;
    while checkRow < n && g[checkRow][col] == x
      invariant row < checkRow <= n
      invariant verticalCount == up + (checkRow - row - 1)
      invariant forall j :: row < j < checkRow ==> g[j][col] == x
      decreases n - checkRow
    {
      verticalCount := verticalCount + 1;
      checkRow := checkRow + 1;
    }
    VerticalRun(g, row, col, color, upStop, checkRow);

    if verticalCount >= 3 {
      return true;
    }
    return false;
  }

  /** The cells of a grid in row-major order. */
  function Flatten(g: Grid): (cells: seq<Cell>)
  {
    if g == [] then [] else Flatten(g[..|g| - 1]) + g[|g| - 1]
  }

  /** The number of cells of colour c in the grid. */
  function ColorCount(g: Grid, c: Color): nat
  {
    multiset(Flatten(g))[Crystal(c)]
  }

  /** The number of non-empty cells of the grid. */
  function FilledCount(g: Grid): nat
  {
    |Flatten(g)| - multiset(Flatten(g))[Empty]
  }

  /** `m[c] || 0`: a missing key reads as zero. */
  function Get(m: map<Color, nat>, c: Color): nat
  {
    if c in m then m[c] else 0
  }

  /** The sum of a colour tally over all six colours. */
  function Total(m: map<Color, nat>): nat
  {
    Get(m, Red) + Get(m, Blue) + Get(m, Green) + Get(m, Yellow) + Get(m, Purple) + Get(m, Orange)
  }

  /** Counting one more cell of colour c raises that colour's count and the total by one. */
  lemma CountOneMore(m: map<Color, nat>, c: Color)
    ensures forall d :: Get(m[c := Get(m, c) + 1], d) == Get(m, d) + (if d == c then 1 else 0)
    ensures Total(m[c := Get(m, c) + 1]) == Total(m) + 1
  {
  }

  /** The same sum, for a bag of cells. */
  function CrystalsIn(b: multiset<Cell>): nat
  {
    b[Crystal(Red)] + b[Crystal(Blue)] + b[Crystal(Green)] + b[Crystal(Yellow)] + b[Crystal(Purple)] + b[Crystal(Orange)]
  }

  /** A single cell is empty or a crystal of exactly one colour. */
  lemma OneCell(x: Cell)
    ensures multiset{x}[Empty] + CrystalsIn(multiset{x}) == 1
  {
    match x
    case Empty =>
    case Crystal(c) =>
      match c
      case Red =>
      case Blue =>
      case Green =>
      case Yellow =>
      case Purple =>
      case Orange =>
  }

  /** A line holds its empty cells and its crystals of the six colours, nothing else. */
  lemma {:induction false} CellsAreEmptyOrCrystals(s: seq<Cell>)
    ensures |s| == multiset(s)[Empty] + CrystalsIn(multiset(s))
  {
    if s != [] {
      var t := s[..|s| - 1];
      assert s == t + [s[|s| - 1]];
      var x := s[|s| - 1];
      assert multiset(s) == multiset(t) + multiset{x};
      OneCell(x);
      CellsAreEmptyOrCrystals(t);
    }
  }

  /** The colour tally of a line of cells, built cell by cell as countColors builds it. */
  function Tally(s: seq<Cell>): map<Color, nat>
  {
    if s == [] then map[]
    else
      var counts := Tally(s[..|s| - 1]);
      match s[|s| - 1]
      case Empty => counts
      case Crystal(c) => counts[c := Get(counts, c) + 1]
  }

  /** The tally has a key exactly for the colours present, and maps each to its number of cells. */
  lemma {:induction false} TallyCounts(s: seq<Cell>)
    ensures forall c :: c in Tally(s) <==> multiset(s)[Crystal(c)] > 0
    ensures forall c :: Get(Tally(s), c) == multiset(s)[Crystal(c)]
    ensures Total(Tally(s)) == CrystalsIn(multiset(s))
  {
    if s != [] {
      var t := s[..|s| - 1];
      assert s == t + [s[|s| - 1]];
      assert multiset(s) == multiset(t) + multiset{s[|s| - 1]};
      TallyCounts(t);
      match s[|s| - 1]
      case Empty =>
      case Crystal(c) =>
        assert Tally(s) == Tally(t)[c := Get(Tally(t), c) + 1];
    }
  }

  /** One more cell on the tally: a crystal adds one to its colour, an empty cell nothing. */
  lemma TallyPush(s: seq<Cell>, x: Cell)
    ensures Tally(s + [x]) == if x == Empty then Tally(s) else Tally(s)[x.color := Get(Tally(s), x.color) + 1]
  {
    assert (s + [x])[..|s|] == s;
  }

  /** The inner loop of countColors: the cells of one row added to the counts of the cells before it. */
  method CountRow(counts: map<Color, nat>, ghost before: seq<Cell>, row: seq<Cell>) returns (newCounts: map<Color, nat>)
    requires counts == Tally(before)
    ensures newCounts == Tally(before + row)
  {
    newCounts := counts;
    assert before + row[..0] == before;
    for col := 0 to |row|
      invariant newCounts == Tally(before + row[..col])
    {
      assert before + row[..col + 1] == (before + row[..col]) + [row[col]];
      TallyPush(before + row[..col], row[col]);
      var cell := row[col];
      if cell != Empty {
        newCounts := newCounts[cell.color := Get(newCounts, cell.color) + 1];
      }
    }
    assert row[..|row|] == row;
  }

  /** countColors: one key per colour present, mapped to its number of cells; empty cells are skipped. */
  method CountColors(g: Grid) returns (counts: map<Color, nat>)
    ensures forall c :: c in counts <==> ColorCount(g, c) > 0
    ensures forall c :: c in counts ==> counts[c] == ColorCount(g, c)
    ensures Total(counts) == FilledCount(g)
  {
    counts := map[];
    for row := 0 to |g|
      invariant counts == Tally(Flatten(g[..row]))
    {
      counts := CountRow(counts, Flatten(g[..row]), g[row]);
      assert g[..row + 1][..row] == g[..row];
    }
    assert g[..|g|] == g;
    TallyCounts(Flatten(g));
    CellsAreEmptyOrCrystals(Flatten(g));
  }

  /** swapCells: a grid equal to the input except that the two positions exchange their cells.
      The source writes into a fresh copy; here the copy is the updated value. */
  function SwapCells(g: Grid, p1: Pos, p2: Pos): (swapped: Grid)
    requires IsSquare(g)
    requires 0 <= p1.row < |g| && 0 <= p1.col < |g| && 0 <= p2.row < |g| && 0 <= p2.col < |g|
    ensures IsSquare(swapped) && |swapped| == |g|
    ensures forall r, c :: 0 <= r < |g| && 0 <= c < |g| ==>
              swapped[r][c] == if Pos(r, c) == p1 then g[p2.row][p2.col]
                               else if Pos(r, c) == p2 then g[p1.row][p1.col]
                               else g[r][c]
  {
    var temp := g[p1.row][p1.col];
    var g1 := g[p1.row := g[p1.row][p1.col := g[p2.row][p2.col]]];
    g1[p2.row := g1[p2.row][p2.col := temp]]
  }

  /** Two grids of the same square shape with the same cells are the same grid. */
  lemma GridExt(g: Grid, h: Grid)
    requires IsSquare(g) && IsSquare(h) && |g| == |h|
    requires forall r, c :: 0 <= r < |g| && 0 <= c < |g| ==> g[r][c] == h[r][c]
    ensures g == h
  {
    forall r | 0 <= r < |g|
      ensures g[r] == h[r]
    {
    }
  }

  /** Swapping the same two positions twice gives back the original grid. */
  lemma SwapTwice(g: Grid, p1: Pos, p2: Pos)
    requires IsSquare(g)
    requires 0 <= p1.row < |g| && 0 <= p1.col < |g| && 0 <= p2.row < |g| && 0 <= p2.col < |g|
    ensures SwapCells(SwapCells(g, p1, p2), p1, p2) == g
  {
    GridExt(SwapCells(SwapCells(g, p1, p2), p1, p2), g);
  }

  /** Swapping a position with itself changes nothing, and the order of the two positions does not matter. */
  lemma SwapSelfAndSymmetric(g: Grid, p1: Pos, p2: Pos)
    requires IsSquare(g)
    requires 0 <= p1.row < |g| && 0 <= p1.col < |g| && 0 <= p2.row < |g| && 0 <= p2.col < |g|
    ensures SwapCells(g, p1, p1) == g
    ensures SwapCells(g, p1, p2) == SwapCells(g, p2, p1)
  {
    GridExt(SwapCells(g, p1, p1), g);
    GridExt(SwapCells(g, p1, p2), SwapCells(g, p2, p1));
  }

  /** Replacing one row changes the grid's bag of cells by exactly that row. */
  lemma {:induction false} FlattenUpdate(g: Grid, r: int, row: seq<Cell>)
    requires 0 <= r < |g|
    ensures multiset(Flatten(g[r := row])) + multiset(g[r]) == multiset(Flatten(g)) + multiset(row)
    decreases |g|
  {
    var h := g[r := row];
    var last := |g| - 1;
    var front := g[..last];
    assert Flatten(h) == Flatten(h[..last]) + h[last];
    assert Flatten(g) == Flatten(front) + g[last];
    if r == last {
      assert h[..last] == front;
    } else {
      assert h[..last] == front[r := row];
      assert h[last] == g[last] && front[r] == g[r];
      FlattenUpdate(front, r, row);
      var a, b, c, d, e := multiset(Flatten(front[r := row])), multiset(g[r]), multiset(Flatten(front)), multiset(row), multiset(g[last]);
      assert multiset(Flatten(h)) == a + e;
      assert multiset(Flatten(g)) == c + e;
      assert a + b == c + d;
      assert (a + e) + b == (c + e) + d by {
        forall x ensures ((a + e) + b)[x] == ((c + e) + d)[x] {
          assert (a + b)[x] == (c + d)[x];
        }
      }
    }
  }

  /** Swapping two cells keeps the grid's bag of cells, so every colour count is kept. */
  lemma SwapKeepsCells(g: Grid, p1: Pos, p2: Pos)
    requires IsSquare(g)
    requires 0 <= p1.row < |g| && 0 <= p1.col < |g| && 0 <= p2.row < |g| && 0 <= p2.col < |g|
    ensures multiset(Flatten(SwapCells(g, p1, p2))) == multiset(Flatten(g))
  {
    var a := g[p1.row][p1.col];
    var b := g[p2.row][p2.col];
    var row1 := g[p1.row][p1.col := b];
    var g1 := g[p1.row := row1];
    var row2 := g1[p2.row][p2.col := a];
    var g2 := g1[p2.row := row2];
    assert SwapCells(g, p1, p2) == g2;
    FlattenUpdate(g, p1.row, row1);
    FlattenUpdate(g1, p2.row, row2);
    assert g1[p2.row][p2.col] == b;
    BagsOfTwoReplacements(multiset(Flatten(g)), multiset(Flatten(g1)), multiset(Flatten(g2)),
      multiset(g[p1.row]), multiset(g1[p2.row]), multiset(row1), multiset(row2), a, b);
  }

  /** The bag arithmetic behind a swap: two one-cell replacements that exchange a and b cancel out. */
  lemma BagsOfTwoReplacements(f0: multiset<Cell>, f1: multiset<Cell>, f2: multiset<Cell>,
                              s1: multiset<Cell>, s2: multiset<Cell>, r1: multiset<Cell>, r2: multiset<Cell>,
                              a: Cell, b: Cell)
    requires f1 + s1 == f0 + r1 && f2 + s2 == f1 + r2
    requires r1 + multiset{a} == s1 + multiset{b} && r2 + multiset{b} == s2 + multiset{a}
    ensures f2 == f0
  {
    forall x
      ensures f2[x] == f0[x]
    {
      assert (f1 + s1)[x] == (f0 + r1)[x];
      assert (f2 + s2)[x] == (f1 + r2)[x];
      assert (r1 + multiset{a})[x] == (s1 + multiset{b})[x];
      assert (r2 + multiset{b})[x] == (s2 + multiset{a})[x];
    }
  }

  /** areAdjacent: one coordinate differs by one and the other is equal. */
  function AreAdjacent(p1: Pos, p2: Pos): (adjacent: bool)
    ensures adjacent <==> Abs(p1.row - p2.row) + Abs(p1.col - p2.col) == 1
  {
    var rowDiff := Abs(p1.row - p2.row);
    var colDiff := Abs(p1.col - p2.col);
    (rowDiff == 1 && colDiff == 0) || (rowDiff == 0 && colDiff == 1)
  }

  /** Adjacency is symmetric and irreflexive, and diagonal neighbours are never adjacent. */
  lemma AdjacencyShape(p1: Pos, p2: Pos)
    ensures AreAdjacent(p1, p2) == AreAdjacent(p2, p1)
    ensures !AreAdjacent(p1, p1)
    ensures Abs(p1.row - p2.row) == 1 && Abs(p1.col - p2.col) == 1 ==> !AreAdjacent(p1, p2)
  {
  }

  /** The `[...colors].sort(() => Math.random() - 0.5)` shuffle as some permutation chosen by the draws:
      each step moves the element at draws(k) mod (remaining length) to the front. */
  function Shuffle(s: seq<Color>, draws: Draws, k: nat): (shuffled: seq<Color>)
    ensures multiset(shuffled) == multiset(s)
    decreases |s|
  {
    if s == [] then []
    else
      var i := draws(k) % |s|;
      assert s == s[..i] + [s[i]] + s[i + 1..];
      [s[i]] + Shuffle(s[..i] + s[i + 1..], draws, k + 1)
  }

  /** A sequence with no repeated colour holds each colour at most once. */
  lemma DistinctCounts(s: seq<Color>, c: Color)
    requires Distinct(s)
    ensures multiset(s)[c] <= 1
  {
    if s != [] {
      var t := s[1..];
      assert s == [s[0]] + t;
      assert Distinct(t);
      DistinctCounts(t, c);
      if s[0] == c {
        assert c !in t;
        assert multiset(t)[c] == 0;
      }
    }
  }

  /** Rearranging a sequence with no repeated colour gives one with no repeated colour. */
  lemma PermutationKeepsDistinct(s: seq<Color>, t: seq<Color>)
    requires Distinct(s) && multiset(t) == multiset(s)
    ensures Distinct(t)
  {
    forall i, j | 0 <= i < j < |t|
      ensures t[i] != t[j]
    {
      if t[i] == t[j] {
        var x := t[i];
        assert t == t[..j] + [t[j]] + t[j + 1..];
        assert t[..j] == t[..i] + [t[i]] + t[i + 1..j];
        assert multiset(t)[x] >= 2;
        DistinctCounts(s, x);
      }
    }
  }
}

/**
 * The move search (src/utils/gravity.js, hasValidMoves, findHint and ensureValidGrid).
 *
 * A move swaps a cell with its right or its lower neighbour; it is valid when the swapped grid
 * holds a match. Both searches visit the cells row by row, left to right, and try the right
 * neighbour before the lower one. ensureValidGrid reshuffles a grid without a valid move by
 * random swaps, a bounded number of times.
 */
module Moves {
  import opened Wrappers
  import opened Colors
  import opened GridHelpers
  import opened MatchDetector

  /** A proposed swap, as findHint returns it. */
  datatype Hint = Hint(pos1: Pos, pos2: Pos)

  /** The swaps the searches try: pos1 in the grid, pos2 its right neighbour or the one below it, also in the grid. */
  predicate IsMove(n: int, h: Hint)
  {
    && 0 <= h.pos1.row < n && 0 <= h.pos1.col < n
    && ((h.pos2 == Pos(h.pos1.row, h.pos1.col + 1) && h.pos1.col + 1 < n)
        || (h.pos2 == Pos(h.pos1.row + 1, h.pos1.col) && h.pos1.row + 1 < n))
  }

  /** Swapping the two cells leaves a grid that holds a match. */
  predicate SwapWorks(g: Grid, h: Hint)
    requires IsSquare(g) && IsMove(|g|, h)
  {
    MatchSet(SwapCells(g, h.pos1, h.pos2)) != {}
  }

  /** A move that creates a match. */
  predicate ValidMove(g: Grid, h: Hint)
    requires IsSquare(g)
  {
    IsMove(|g|, h) && SwapWorks(g, h)
  }

  /** Some right or lower swap makes a match. */
  ghost predicate AnyValidMove(g: Grid)
    requires IsSquare(g)
  {
    exists h :: ValidMove(g, h)
  }

  /** 0 for a swap with the right neighbour, 1 for one with the cell below. */
  function Direction(h: Hint): (d: int)
    ensures d == 0 || d == 1
  {
    if h.pos2.row == h.pos1.row then 0 else 1
  }

  /** The searches reach h before the cell (row, col) tries direction dir: an earlier row, an earlier cell of
      the same row, or the same cell in an earlier direction. */
  predicate TriedBefore(h: Hint, row: int, col: int, dir: int)
  {
    || h.pos1.row < row
    || (h.pos1.row == row && h.pos1.col < col)
    || (h.pos1 == Pos(row, col) && Direction(h) < dir)
  }

  /** No move the searches try before reaching (row, col, dir) is valid. */
  ghost predicate NoneBefore(g: Grid, row: int, col: int, dir: int)
    requires IsSquare(g)
  {
    forall h :: IsMove(|g|, h) && TriedBefore(h, row, col, dir) ==> !SwapWorks(g, h)
  }

  /** The search order: h1 is tried before h2. */
  predicate Precedes(h1: Hint, h2: Hint)
  {
    TriedBefore(h1, h2.pos1.row, h2.pos1.col, Direction(h2))
  }

  /** The one move the search tries between reaching (row, col, dir) and the step after it. */
  lemma OnlyMoveBetween(n: int, h: Hint, row: int, col: int, dir: int)
    requires IsMove(n, h) && (dir == 0 || dir == 1) && !TriedBefore(h, row, col, dir)
    requires if dir == 0 then TriedBefore(h, row, col, 1) else TriedBefore(h, row, col + 1, 0)
    ensures h == if dir == 0 then Hint(Pos(row, col), Pos(row, col + 1)) else Hint(Pos(row, col), Pos(row + 1, col))
  {
  }

  /** Trying one move: swap the two cells in a copy and look for a match. */
  method TryMove(g: Grid, h: Hint) returns (works: bool)
    requires IsSquare(g) && IsMove(|g|, h)
    ensures works <==> SwapWorks(g, h)
  {
    var testGrid := SwapCells(g, h.pos1, h.pos2);
    var matches := FindMatches(testGrid);
    works := |matches| > 0;
  }

  /** The right swap of (row, col) was tried, and failed or does not exist. */
  lemma RightTried(g: Grid, row: int, col: int)
    requires IsSquare(g) && 0 <= row < |g| && 0 <= col < |g|
    requires NoneBefore(g, row, col, 0)
    requires col + 1 < |g| ==> !SwapWorks(g, Hint(Pos(row, col), Pos(row, col + 1)))
    ensures NoneBefore(g, row, col, 1)
  {
    forall h | IsMove(|g|, h) && TriedBefore(h, row, col, 1)
      ensures !SwapWorks(g, h)
    {
      if !TriedBefore(h, row, col, 0) {
        OnlyMoveBetween(|g|, h, row, col, 0);
      }
    }
  }

  /** The lower swap of (row, col) was tried, and failed or does not exist. */
  lemma DownTried(g: Grid, row: int, col: int)
    requires IsSquare(g) && 0 <= row < |g| && 0 <= col < |g|
    requires NoneBefore(g, row, col, 1)
    requires row + 1 < |g| ==> !SwapWorks(g, Hint(Pos(row, col), Pos(row + 1, col)))
    ensures NoneBefore(g, row, col + 1, 0)
  {
    forall h | IsMove(|g|, h) && TriedBefore(h, row, col + 1, 0)
      ensures !SwapWorks(g, h)
    {
      if !TriedBefore(h, row, col, 1) {
        OnlyMoveBetween(|g|, h, row, col, 1);
      }
    }
  }

  /** Past the last cell of a row the search has tried the whole row. */
  lemma RowTried(g: Grid, row: int)
    requires IsSquare(g) && NoneBefore(g, row, |g|, 0)
    ensures NoneBefore(g, row + 1, 0, 0)
  {
  }

  /** Past the last row the search has tried every move. */
  lemma AllTried(g: Grid)
    requires IsSquare(g) && NoneBefore(g, |g|, 0, 0)
    ensures !AnyValidMove(g)
  {
    if h :| ValidMove(g, h) {
      assert TriedBefore(h, |g|, 0, 0);
    }
  }

  /** The body of both searches' inner loop: the swap of (row, col) with its right neighbour, then with the
      cell below, each tried when the neighbour exists; the first that makes a match is returned. */
  method TryCell(g: Grid, row: int, col: int) returns (hit: Option<Hint>)
    requires IsSquare(g) && 0 <= row < |g| && 0 <= col < |g| && NoneBefore(g, row, col, 0)
    ensures hit.None? ==> NoneBefore(g, row, col + 1, 0)
    ensures hit.Some? ==> hit.value.pos1 == Pos(row, col) && ValidMove(g, hit.value)
    ensures hit.Some? ==> NoneBefore(g, row, col, Direction(hit.value))
  {
    var size := |g|;
    if col < size - 1 {
      var works := TryMove(g, Hint(Pos(row, col), Pos(row, col + 1)));
      if works {
        return Some(Hint(Pos(row, col), Pos(row, col + 1)));
      }
    }
    RightTried(g, row, col);
    if row < size - 1 {
      var works := TryMove(g, Hint(Pos(row, col), Pos(row + 1, col)));
      if works {
        return Some(Hint(Pos(row, col), Pos(row + 1, col)));
      }
    }
    DownTried(g, row, col);
    return None;
  }

  /** A valid move reached with nothing valid before it is the first valid move in the search order. */
  lemma FirstHit(g: Grid, h: Hint)
    requires IsSquare(g) && ValidMove(g, h) && NoneBefore(g, h.pos1.row, h.pos1.col, Direction(h))
    ensures AnyValidMove(g)
    ensures forall h' :: Precedes(h', h) ==> !ValidMove(g, h')
  {
  }

  /** hasValidMoves: every right and every lower swap tried in turn; true at the first one that makes a match. */
  method HasValidMoves(g: Grid) returns (found: bool)
    requires IsSquare(g)
    ensures found <==> AnyValidMove(g)
  {
    var size := |g|;
    for row := 0 to size
      invariant NoneBefore(g, row, 0, 0)
    {
      for col := 0 to size
        invariant NoneBefore(g, row, col, 0)
      {
        var hit := TryCell(g, row, col);
        if hit.Some? {
          FirstHit(g, hit.value);
          return true;
        }
      }
      RowTried(g, row);
    }
    AllTried(g);
    return false;
  }

  /** findHint: the same search, returning the first move that makes a match: null exactly when there is none,
      and otherwise a valid right or lower swap that no earlier move in the search order beats. */
  method FindHint(g: Grid) returns (hint: Option<Hint>)
    requires IsSquare(g)
    ensures hint.None? <==> !AnyValidMove(g)
    ensures hint.Some? ==> ValidMove(g, hint.value)
    ensures hint.Some? ==> forall h :: Precedes(h, hint.value) ==> !ValidMove(g, h)
  {
    var size := |g|;
    for row := 0 to size
      invariant NoneBefore(g, row, 0, 0)
    {
      for col := 0 to size
        invariant NoneBefore(g, row, col, 0)
      {
        var hit := TryCell(g, row, col);
        if hit.Some? {
          FirstHit(g, hit.value);
          return hit;
        }
      }
      RowTried(g, row);
    }
    AllTried(g);
    return None;
  }

  /** Searching only right and lower swaps loses nothing: any swap of two adjacent cells that makes a match
      is, read the other way round, one of the moves searched. */
  lemma AdjacentSwapsSearched(g: Grid, p1: Pos, p2: Pos)
    requires IsSquare(g) && InGrid(g, p1) && InGrid(g, p2) && AreAdjacent(p1, p2)
    requires MatchSet(SwapCells(g, p1, p2)) != {}
    ensures AnyValidMove(g)
  {
    SwapSelfAndSymmetric(g, p1, p2);
    if IsMove(|g|, Hint(p1, p2)) {
      assert ValidMove(g, Hint(p1, p2));
    } else {
      assert ValidMove(g, Hint(p2, p1));
    }
  }

  /** Math.floor(size * size * 0.2), the number of random swaps of one reshuffle. */
  function SwapCount(size: nat): (n: nat)
    ensures n > 0 ==> size > 0
  {
    size * size / 5
  }

  /** The cell picked by draws k and k + 1: row Math.floor(Math.random() * size) is draws(k) mod size, the
      column draws(k + 1) mod size. */
  function DrawnPos(draws: Draws, k: nat, size: nat): (p: Pos)
    requires size > 0
    ensures 0 <= p.row < size && 0 <= p.col < size
  {
    Pos(draws(k) % size, draws(k + 1) % size)
  }

  /** One swap of a reshuffle, done in place through a temporary: the cells picked by draws k, k + 1 and by
      draws k + 2, k + 3 trade places. */
  function SwapDrawnCells(g: Grid, draws: Draws, k: nat): (h: Grid)
    requires IsSquare(g) && |g| > 0
    ensures IsSquare(h) && |h| == |g|
  {
    var p1, p2 := DrawnPos(draws, k, |g|), DrawnPos(draws, k + 2, |g|);
    var temp := g[p1.row][p1.col];
    var g1 := g[p1.row := g[p1.row][p1.col := g[p2.row][p2.col]]];
    g1[p2.row := g1[p2.row][p2.col := temp]]
  }

  /** The swap of a reshuffle is swapCells at the two drawn cells, so it keeps the grid's cells. */
  lemma SwapDrawnKeepsCells(g: Grid, draws: Draws, k: nat)
    requires IsSquare(g) && |g| > 0
    ensures multiset(Flatten(SwapDrawnCells(g, draws, k))) == multiset(Flatten(g))
  {
    var p1, p2 := DrawnPos(draws, k, |g|), DrawnPos(draws, k + 2, |g|);
    assert SwapDrawnCells(g, draws, k) == SwapCells(g, p1, p2);
    SwapKeepsCells(g, p1, p2);
  }

  /** The grid after the first i swaps of a reshuffle whose draws start at index next: swap j uses the four
      draws from next + 4j on. A reshuffle only swaps cells, so the grid keeps its cells, as often each. */
  function Reshuffled(g: Grid, draws: Draws, next: nat, i: nat): (h: Grid)
    requires IsSquare(g) && (i == 0 || |g| > 0)
    ensures IsSquare(h) && |h| == |g|
    ensures multiset(Flatten(h)) == multiset(Flatten(g))
  {
    if i == 0 then g
    else
      var prev := Reshuffled(g, draws, next, i - 1);
      SwapDrawnKeepsCells(prev, draws, next + 4 * (i - 1));
      SwapDrawnCells(prev, draws, next + 4 * (i - 1))
  }

  /** Swap i of a reshuffle, written out: swapping the cells drawn from next + 4i in the grid after i swaps
      gives the grid after i + 1. */
  lemma ReshuffledStep(g: Grid, draws: Draws, next: nat, i: nat, k: nat, cur: Grid, swapped: Grid)
    requires IsSquare(g) && |g| > 0 && k == next + 4 * i
    requires cur == Reshuffled(g, draws, next, i) && swapped == SwapDrawnCells(cur, draws, k)
    ensures swapped == Reshuffled(g, draws, next, i + 1)
  {
    assert swapped == SwapDrawnCells(Reshuffled(g, draws, next, i), draws, next + 4 * i);
  }

  /** The body of the swap loop of ensureValidGrid: draws k to k + 3 pick two cells, which trade places. */
  method ReshuffleSwap(g: Grid, draws: Draws, k: nat) returns (swapped: Grid)
    requires IsSquare(g) && |g| > 0
    ensures swapped == SwapDrawnCells(g, draws, k)
  {
    var size := |g|;
    var row1 := draws(k) % size;
    var col1 := draws(k + 1) % size;
    var row2 := draws(k + 2) % size;
    var col2 := draws(k + 3) % size;
    var temp := g[row1][col1];
    swapped := g[row1 := g[row1][col1 := g[row2][col2]]];
    swapped := swapped[row2 := swapped[row2][col2 := temp]];
  }

  /** One reshuffle of ensureValidGrid: swapCount swaps of two random cells, the draws starting at index next.
      It makes exactly the swaps of Reshuffled, so the grid keeps its cells. */
  method Reshuffle(g: Grid, draws: Draws, next: nat) returns (newGrid: Grid)
    requires IsSquare(g)
    ensures newGrid == Reshuffled(g, draws, next, SwapCount(|g|))
    ensures multiset(Flatten(newGrid)) == multiset(Flatten(g))
  {
    var size := |g|;
    newGrid := g;
    var swapCount := SwapCount(size);
    for i := 0 to swapCount
      invariant newGrid == Reshuffled(g, draws, next, i)
    {
      var k := next + 4 * i;
      var swapped := ReshuffleSwap(newGrid, draws, k);
      ReshuffledStep(g, draws, next, i, k, newGrid, swapped);
      newGrid := swapped;
    }
  }

  /** The index of the first draw of reshuffle number j: each reshuffle takes four draws per swap. */
  function ReshuffleStart(size: nat, j: nat): nat
  {
    j * (4 * SwapCount(size))
  }

  /** The grid after k successive reshuffles, reshuffle j drawing from ReshuffleStart(size, j) on. */
  function Reshuffles(g: Grid, draws: Draws, k: nat): (h: Grid)
    requires IsSquare(g)
    ensures IsSquare(h) && |h| == |g|
    ensures multiset(Flatten(h)) == multiset(Flatten(g))
  {
    if k == 0 then g
    else
      var prev := Reshuffles(g, draws, k - 1);
      Reshuffled(prev, draws, ReshuffleStart(|g|, k - 1), SwapCount(|prev|))
  }

  /** Reshuffle number k, written out: one more reshuffle of the grid after k of them. */
  lemma ReshufflesStep(g: Grid, draws: Draws, k: nat)
    requires IsSquare(g)
    ensures var prev := Reshuffles(g, draws, k);
      Reshuffles(g, draws, k + 1) == Reshuffled(prev, draws, ReshuffleStart(|g|, k), SwapCount(|prev|))
  {
  }

  /** One more reshuffled grid without a valid move extends the run of grids without one. */
  lemma NoMoveYet(g: Grid, draws: Draws, t: nat, cur: Grid)
    requires IsSquare(g) && cur == Reshuffles(g, draws, t) && !AnyValidMove(cur)
    requires forall j :: 0 <= j < t ==> !AnyValidMove(Reshuffles(g, draws, j))
    ensures forall j :: 0 <= j < t + 1 ==> !AnyValidMove(Reshuffles(g, draws, j))
  {
  }

  /** ensureValidGrid: while the grid has no valid move and fewer than maxAttempts reshuffles were made,
      reshuffle it. The grid returned is the input after `attempts` reshuffles; none of the grids before it had a
      valid move; and it has a valid move unless every allowed reshuffle was spent. Only swaps are made, so the
      grid keeps its cells, and a grid that already has a valid move comes back unchanged.
      The palette argument is never read by the source and is not a parameter here. */
  method EnsureValidGrid(g: Grid, maxAttempts: int, draws: Draws) returns (newGrid: Grid, ghost attempts: nat)
    requires IsSquare(g)
    ensures newGrid == Reshuffles(g, draws, attempts)
    ensures forall j :: 0 <= j < attempts ==> !AnyValidMove(Reshuffles(g, draws, j))
    ensures attempts < maxAttempts ==> AnyValidMove(newGrid)
    ensures attempts <= if maxAttempts < 0 then 0 else maxAttempts
    ensures multiset(Flatten(newGrid)) == multiset(Flatten(g))
    ensures AnyValidMove(g) ==> newGrid == g
  {
    var currentGrid := g;
    var tries := 0;
    while true
      invariant currentGrid == Reshuffles(g, draws, tries)
      invariant forall j :: 0 <= j < tries ==> !AnyValidMove(Reshuffles(g, draws, j))
      invariant 0 <= tries && (tries <= maxAttempts || tries == 0)
      decreases maxAttempts - tries
    {
      var valid := HasValidMoves(currentGrid);
      if valid || tries >= maxAttempts {
        break;
      }
      NoMoveYet(g, draws, tries, currentGrid);
      ReshufflesStep(g, draws, tries);
      currentGrid := Reshuffle(currentGrid, draws, ReshuffleStart(|g|, tries));
      tries := tries + 1;
    }
    newGrid, attempts := currentGrid, tries;
  }
}

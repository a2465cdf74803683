/**
 * The level generator (src/utils/levelGenerator.js): the grid filled so that no match exists at
 * the start, the goal of a level, its move limit, the check that a grid can serve a goal, and the
 * assembly of a level from its tier.
 *
 * Every random choice is a supplied draw: a shuffle of the palette is Shuffle over the draws, a
 * random palette colour is RandomColor of one draw.
 */
module LevelGenerator {
  import opened Wrappers
  import opened Colors
  import opened GridHelpers
  import opened MatchDetector
  import opened Tiers

  // ---------------------------------------------------------------------------------------------
  // generateGrid
  // ---------------------------------------------------------------------------------------------

  /** (r, c) comes before (row, col) in row-major order. */
  predicate Before(r: int, c: int, row: int, col: int)
  {
    r < row || (r == row && c < col)
  }

  /** Every cell before (row, col) holds a palette colour and every other cell is still empty. */
  ghost predicate FilledUpTo(g: Grid, size: nat, palette: seq<Color>, row: int, col: int)
    requires IsSquare(g) && |g| == size
  {
    forall r, c :: 0 <= r < size && 0 <= c < size ==>
      if Before(r, c, row, col) then g[r][c].Crystal? && g[r][c].color in palette else g[r][c] == Empty
  }

  /** The grid while generateGrid fills it: filled up to (row, col), and no row or column holds three equal
      crystals side by side. */
  ghost predicate FillState(g: Grid, size: nat, palette: seq<Color>, row: int, col: int)
  {
    IsSquare(g) && |g| == size && NoTriples(g) && FilledUpTo(g, size, palette, row, col)
  }

  /** Three equal crystals side by side after placing x at index i of a line were either there before, or
      placing x made a run of three. */
  lemma TripleAfterPlacing(line: seq<Cell>, i: int, x: Color)
    requires 0 <= i < |line| && HasTriple(line[i := Crystal(x)])
    ensures HasTriple(line) || 1 + RunBefore(line, i, Crystal(x)) + RunAfter(line, i, Crystal(x)) >= 3
  {
    var l := line[i := Crystal(x)];
    var j :| 0 <= j && j + 2 < |l| && l[j] != Empty && l[j] == l[j + 1] && l[j + 1] == l[j + 2];
    if j <= i <= j + 2 {
      RunAround(line, i, j, Crystal(x));
    } else {
      assert line[j] == l[j] && line[j + 1] == l[j + 1] && line[j + 2] == l[j + 2];
    }
  }

  /** When the other two cells of a window of three around index i equal x, the run through i is three long. */
  lemma RunAround(line: seq<Cell>, i: int, j: int, x: Cell)
    requires 0 <= j <= i <= j + 2 < |line|
    requires forall k :: j <= k <= j + 2 && k != i ==> line[k] == x
    ensures 1 + RunBefore(line, i, x) + RunAfter(line, i, x) >= 3
  {
    if i == j {
      assert line[i + 1] == x && line[i + 2] == x;
    } else if i == j + 1 {
      assert line[i - 1] == x && line[i + 1] == x;
    } else {
      assert line[i - 1] == x && line[i - 2] == x;
    }
  }

  /** Placing a colour in a line without making a run of three keeps the line free of three equal crystals. */
  lemma PlaceInLine(line: seq<Cell>, i: int, x: Color)
    requires 0 <= i < |line| && !HasTriple(line)
    requires 1 + RunBefore(line, i, Crystal(x)) + RunAfter(line, i, Crystal(x)) < 3
    ensures !HasTriple(line[i := Crystal(x)])
  {
    if HasTriple(line[i := Crystal(x)]) {
      TripleAfterPlacing(line, i, x);
    }
  }

  /** The grid with crystal x written into (row, col). */
  function Placed(g: Grid, row: int, col: int, x: Color): (h: Grid)
    requires IsSquare(g) && 0 <= row < |g| && 0 <= col < |g|
    ensures IsSquare(h) && |h| == |g|
  {
    g[row := g[row][col := Crystal(x)]]
  }

  /** Placing a colour that makes no horizontal run of three keeps every row free of three equal crystals. */
  lemma PlaceKeepsRows(g: Grid, row: int, col: int, x: Color)
    requires IsSquare(g) && 0 <= row < |g| && 0 <= col < |g|
    requires forall r :: 0 <= r < |g| ==> !HasTriple(g[r])
    requires RowRunLength(g, row, col, x) < 3
    ensures forall r :: 0 <= r < |g| ==> !HasTriple(Placed(g, row, col, x)[r])
  {
    PlaceInLine(g[row], col, x);
  }

  /** Placing a colour that makes no vertical run of three keeps every column free of three equal crystals. */
  lemma PlaceKeepsColumns(g: Grid, row: int, col: int, x: Color)
    requires IsSquare(g) && 0 <= row < |g| && 0 <= col < |g|
    requires forall c :: 0 <= c < |g| ==> !HasTriple(Column(g, c))
    requires ColumnRunLength(g, row, col, x) < 3
    ensures forall c :: 0 <= c < |g| ==> !HasTriple(Column(Placed(g, row, col, x), c))
  {
    forall c | 0 <= c < |g|
      ensures !HasTriple(Column(Placed(g, row, col, x), c))
    {
      ColumnOfPlaced(g, row, col, x, c);
      if c == col {
        PlaceInLine(Column(g, col), row, x);
      }
    }
  }

  /** Writing into (row, col) changes column col at index row and leaves the other columns as they were. */
  lemma ColumnOfPlaced(g: Grid, row: int, col: int, x: Color, c: int)
    requires IsSquare(g) && 0 <= row < |g| && 0 <= col < |g| && 0 <= c < |g|
    ensures Column(Placed(g, row, col, x), c) == if c == col then Column(g, col)[row := Crystal(x)] else Column(g, c)
  {
  }

  /** A colour that wouldCreateMatch accepts at (row, col) keeps the grid free of three equal crystals. */
  lemma PlaceKeepsNoTriples(g: Grid, row: int, col: int, x: Color)
    requires IsSquare(g) && 0 <= row < |g| && 0 <= col < |g| && NoTriples(g)
    requires !CreatesMatchAt(g, row, col, x)
    ensures NoTriples(Placed(g, row, col, x))
  {
    PlaceKeepsRows(g, row, col, x);
    PlaceKeepsColumns(g, row, col, x);
  }

  /** With the cells right of and below (row, col) still empty, a colour is refused only when the cell to the
      left or the cell above already holds it. */
  lemma BlockedByNeighbour(g: Grid, row: int, col: int, x: Color)
    requires IsSquare(g) && 0 <= row < |g| && 0 <= col < |g|
    requires col + 1 == |g| || g[row][col + 1] == Empty
    requires row + 1 == |g| || g[row + 1][col] == Empty
    requires CreatesMatchAt(g, row, col, x)
    ensures (col > 0 && g[row][col - 1] == Crystal(x)) || (row > 0 && g[row - 1][col] == Crystal(x))
  {
    assert RunAfter(g[row], col, Crystal(x)) == 0;
    assert RunAfter(Column(g, col), row, Crystal(x)) == 0;
  }

  /** Of three different colours at most two are refused (one by the cell to the left, one by the cell above),
      so a palette of at least three different colours always has one that fits. */
  lemma SomeColourFree(g: Grid, row: int, col: int, palette: seq<Color>) returns (y: Color)
    requires IsSquare(g) && 0 <= row < |g| && 0 <= col < |g|
    requires col + 1 == |g| || g[row][col + 1] == Empty
    requires row + 1 == |g| || g[row + 1][col] == Empty
    requires Distinct(palette) && |palette| >= 3
    ensures y in palette && !CreatesMatchAt(g, row, col, y)
  {
    var a, b, c := palette[0], palette[1], palette[2];
    if !CreatesMatchAt(g, row, col, a) {
      return a;
    }
    if !CreatesMatchAt(g, row, col, b) {
      return b;
    }
    BlockedByNeighbour(g, row, col, a);
    BlockedByNeighbour(g, row, col, b);
    if CreatesMatchAt(g, row, col, c) {
      BlockedByNeighbour(g, row, col, c);
      assert false;
    }
    return c;
  }

  /** Writing a palette colour into the first empty cell fills the grid one cell further. */
  lemma FillOneMore(g: Grid, size: nat, palette: seq<Color>, row: int, col: int, x: Color)
    requires IsSquare(g) && |g| == size && 0 <= row < size && 0 <= col < size
    requires FilledUpTo(g, size, palette, row, col) && x in palette
    ensures FilledUpTo(Placed(g, row, col, x), size, palette, row, col + 1)
  {
    var h: Grid := Placed(g, row, col, x);
    forall r, c | 0 <= r < size && 0 <= c < size
      ensures if Before(r, c, row, col + 1) then h[r][c].Crystal? && h[r][c].color in palette else h[r][c] == Empty
    {
      if r == row && c == col {
        assert h[r][c] == Crystal(x);
      } else {
        assert h[r][c] == g[r][c];
      }
    }
  }

  /** A shuffle of a palette of at least three different colours holds a colour that fits. */
  lemma FreeColourInShuffle(g: Grid, row: int, col: int, palette: seq<Color>, shuffled: seq<Color>)
    requires IsSquare(g) && 0 <= row < |g| && 0 <= col < |g|
    requires col + 1 == |g| || g[row][col + 1] == Empty
    requires row + 1 == |g| || g[row + 1][col] == Empty
    requires Distinct(palette) && |palette| >= 3 && multiset(shuffled) == multiset(palette)
    ensures exists j :: 0 <= j < |shuffled| && !CreatesMatchAt(g, row, col, shuffled[j])
  {
    var y := SomeColourFree(g, row, col, palette);
    assert y in multiset(shuffled);
    var j :| 0 <= j < |shuffled| && shuffled[j] == y;
  }

  /** Filling one more cell with a colour that fits keeps the fill state, one cell further on. */
  lemma FillStep(g: Grid, size: nat, palette: seq<Color>, row: int, col: int, x: Color)
    requires FillState(g, size, palette, row, col) && 0 <= row < size && 0 <= col < size
    requires x in palette && !CreatesMatchAt(g, row, col, x)
    ensures FillState(Placed(g, row, col, x), size, palette, row, col + 1)
  {
    PlaceKeepsNoTriples(g, row, col, x);
    FillOneMore(g, size, palette, row, col, x);
  }

  /** The inner `for (const color of shuffledColors)` loop: the first colour wouldCreateMatch accepts is written
      into (row, col); foundValid is false, and the grid unchanged, when it accepts none. */
  method PlaceColour(g: Grid, row: int, col: int, shuffled: seq<Color>)
    returns (newGrid: Grid, foundValid: bool, ghost chosen: int)
    requires IsSquare(g) && 0 <= row < |g| && 0 <= col < |g|
    ensures foundValid ==> 0 <= chosen < |shuffled| && !CreatesMatchAt(g, row, col, shuffled[chosen])
                           && newGrid == Placed(g, row, col, shuffled[chosen])
    ensures foundValid ==> forall j :: 0 <= j < chosen ==> CreatesMatchAt(g, row, col, shuffled[j])
    ensures !foundValid ==> newGrid == g && forall j :: 0 <= j < |shuffled| ==> CreatesMatchAt(g, row, col, shuffled[j])
  {
    newGrid, foundValid, chosen := g, false, 0;
    for i := 0 to |shuffled|
      invariant forall j :: 0 <= j < i ==> CreatesMatchAt(g, row, col, shuffled[j])
    {
      var creates := WouldCreateMatch(g, row, col, shuffled[i]);
      if !creates {
        newGrid := Placed(g, row, col, shuffled[i]);
        foundValid, chosen := true, i;
        return;
      }
    }
  }

  /** One cell of an attempt of generateGrid: a fresh shuffle of the palette from draw `next` on, and the first
      of its colours that fits. When none fits, the palette does not hold three different colours. */
  method FillCell(grid: Grid, size: nat, palette: seq<Color>, row: int, col: int, draws: Draws, next: nat)
    returns (newGrid: Grid, foundValid: bool)
    requires FillState(grid, size, palette, row, col) && 0 <= row < size && 0 <= col < size
    ensures foundValid ==> FillState(newGrid, size, palette, row, col + 1)
    ensures !foundValid ==> !(Distinct(palette) && |palette| >= 3)
  {
    var shuffled := Shuffle(palette, draws, next);
    ghost var chosen;
    newGrid, foundValid, chosen := PlaceColour(grid, row, col, shuffled);
    if foundValid {
      assert shuffled[chosen] in multiset(palette);
      FillStep(grid, size, palette, row, col, shuffled[chosen]);
    } else if Distinct(palette) && |palette| >= 3 {
      FreeColourInShuffle(grid, row, col, palette, shuffled);
      assert false;
    }
  }

  /** One attempt of generateGrid: an empty grid filled row by row, each cell with the first colour of a fresh
      shuffle of the palette that wouldCreateMatch accepts; the attempt fails at the first cell where it accepts
      none. Each shuffle takes |palette| draws from `next` on; `after` is the first draw not used. */
  method FillAttempt(size: nat, palette: seq<Color>, draws: Draws, next: nat)
    returns (grid: Grid, success: bool, after: nat)
    ensures IsSquare(grid) && |grid| == size
    ensures success ==> FillState(grid, size, palette, size, 0)
    ensures Distinct(palette) && |palette| >= 3 ==> success
  {
    grid := CreateEmptyGrid(size);
    success := true;
    after := next;
    for row := 0 to size
      invariant FillState(grid, size, palette, row, 0)
    {
      for col := 0 to size
        invariant FillState(grid, size, palette, row, col)
      {
        var placed, foundValid := FillCell(grid, size, palette, row, col, draws, after);
        after := after + |palette|;
        if !foundValid {
          success := false;
          return;
        }
        grid := placed;
      }
    }
  }

  /** The fallback of generateGrid: every cell a random palette colour, one draw per cell from `next` on. */
  method RandomGrid(size: nat, palette: seq<Color>, draws: Draws, next: nat) returns (grid: Grid)
    requires |palette| > 0
    ensures IsSquare(grid) && |grid| == size
    ensures forall r, c :: 0 <= r < size && 0 <= c < size ==> grid[r][c].Crystal? && grid[r][c].color in palette
  {
    grid := CreateEmptyGrid(size);
    var k := next;
    for row := 0 to size
      invariant IsSquare(grid) && |grid| == size
      invariant forall r, c :: 0 <= r < row && 0 <= c < size ==> grid[r][c].Crystal? && grid[r][c].color in palette
    {
      for col := 0 to size
        invariant IsSquare(grid) && |grid| == size
        invariant forall r, c :: 0 <= r < size && 0 <= c < size && Before(r, c, row, col) ==>
                    grid[r][c].Crystal? && grid[r][c].color in palette
      {
        grid := grid[row := grid[row][col := Crystal(RandomColor(palette, draws(k)))]];
        k := k + 1;
      }
    }
  }

  /** generateGrid: up to maxAttempts fill attempts, then the random fallback. Every cell holds a palette colour;
      a grid from a successful attempt holds no match; and with at least three different colours and at least
      one attempt allowed the first attempt always succeeds, so the fallback is never reached. */
  method GenerateGrid(size: nat, palette: seq<Color>, maxAttempts: int, draws: Draws)
    returns (grid: Grid, ghost fellBack: bool)
    requires |palette| > 0
    ensures IsSquare(grid) && |grid| == size
    ensures forall r, c :: 0 <= r < size && 0 <= c < size ==> grid[r][c].Crystal? && grid[r][c].color in palette
    ensures !fellBack ==> MatchSet(grid) == {}
    ensures Distinct(palette) && |palette| >= 3 && maxAttempts >= 1 ==> !fellBack
  {
    var attempts := 0;
    var next := 0;
    while attempts < maxAttempts
      invariant 0 <= attempts
      invariant Distinct(palette) && |palette| >= 3 ==> attempts == 0
      decreases maxAttempts - attempts
    {
      var candidate, success;
      candidate, success, next := FillAttempt(size, palette, draws, next);
      if success {
        NoMatchesIffNoTriples(candidate);
        return candidate, false;
      }
      attempts := attempts + 1;
    }
    grid := RandomGrid(size, palette, draws, next);
    fellBack := true;
  }

  // ---------------------------------------------------------------------------------------------
  // generateGoal
  // ---------------------------------------------------------------------------------------------

  datatype Target = Target(color: Color, amount: int)

  /** A level goal; the description text shown to the player is not modelled. */
  datatype Goal =
    | ClearColorGoal(color: Color, amount: int)
    | MakeMatchesGoal(amount: int)
    | ClearDualGoal(targets: seq<Target>)

  function Kind(goal: Goal): GoalType
  {
    match goal
    case ClearColorGoal(_, _) => ClearColor
    case MakeMatchesGoal(_) => MakeMatches
    case ClearDualGoal(_) => ClearDual
  }

  /** The colours a goal names. */
  function GoalColors(goal: Goal): seq<Color>
  {
    match goal
    case ClearColorGoal(c, _) => [c]
    case MakeMatchesGoal(_) => []
    case ClearDualGoal(targets) => seq(|targets|, i requires 0 <= i < |targets| => targets[i].color)
  }

  /** The amounts a goal asks for. */
  function GoalAmounts(goal: Goal): seq<int>
  {
    match goal
    case ClearColorGoal(_, a) => [a]
    case MakeMatchesGoal(a) => [a]
    case ClearDualGoal(targets) => seq(|targets|, i requires 0 <= i < |targets| => targets[i].amount)
  }

  /** JavaScript's `%`: the remainder takes the sign of the dividend. */
  function JsRem(a: int, b: int): (r: int)
    requires b > 0
    ensures a >= 0 ==> r == a % b
    ensures a < 0 ==> r <= 0 && -r == (-a) % b
  {
    if a >= 0 then a % b else -((-a) % b)
  }

  /** goalTypes[(level - first) % goalTypes.length]: None where the source reads past the list, which happens
      when the list is empty (the index is NaN) and when the level lies below the tier's range and the remainder
      is negative. */
  function GoalTypeAt(config: TierConfig, level: int): (gt: Option<GoalType>)
    ensures gt.Some? ==> gt.value in config.goalTypes
    ensures gt.Some? <==> |config.goalTypes| > 0 && (level >= config.levels.0 || (config.levels.0 - level) % |config.goalTypes| == 0)
    ensures level >= config.levels.0 && |config.goalTypes| > 0 ==>
              gt == Some(config.goalTypes[(level - config.levels.0) % |config.goalTypes|])
  {
    if |config.goalTypes| == 0 then None
    else
      var i := JsRem(level - config.levels.0, |config.goalTypes|);
      if i < 0 then None else Some(config.goalTypes[i])
  }

  /** Math.floor(min + (max - min) * progress). */
  function TargetAmount(range: (int, int), progress: real): (amount: int)
    ensures range.0 <= range.1 && 0.0 <= progress <= 1.0 ==> range.0 <= amount <= range.1
  {
    var d := (range.1 - range.0) as real;
    assert range.0 <= range.1 && 0.0 <= progress <= 1.0 ==> 0.0 <= d * progress <= d by {
      if range.0 <= range.1 && 0.0 <= progress <= 1.0 {
        ProductNonNegative(d, progress);
        ProductNonNegative(d, 1.0 - progress);
        assert d - d * progress == d * (1.0 - progress);
      }
    }
    (range.0 as real + d * progress).Floor
  }

  lemma ProductNonNegative(a: real, b: real)
    requires a >= 0.0 && b >= 0.0
    ensures a * b >= 0.0
  {
  }

  /** The target grows (never shrinks) as the progress through the tier grows. */
  lemma TargetAmountGrows(range: (int, int), p1: real, p2: real)
    requires range.0 <= range.1 && p1 <= p2
    ensures TargetAmount(range, p1) <= TargetAmount(range, p2)
  {
    var d := (range.1 - range.0) as real;
    ProductNonNegative(d, p2 - p1);
    assert d * p2 - d * p1 == d * (p2 - p1);
    var x, y := range.0 as real + d * p1, range.0 as real + d * p2;
    assert x <= y;
    assert x.Floor <= y.Floor;
  }

  /** The clear_dual goal: the first two colours of a shuffle of the palette, the same amount for both. */
  function DualGoal(palette: seq<Color>, shuffleDraws: Draws, amount: int): (goal: Goal)
    requires |palette| >= 2
    ensures goal.ClearDualGoal? && |goal.targets| == 2
    ensures goal.targets[0].amount == amount && goal.targets[1].amount == amount
    ensures goal.targets[0].color in palette && goal.targets[1].color in palette
    ensures Distinct(palette) ==> goal.targets[0].color != goal.targets[1].color
  {
    var shuffled := Shuffle(palette, shuffleDraws, 0);
    assert |shuffled| == |multiset(palette)|;
    assert shuffled[0] in multiset(palette) && shuffled[1] in multiset(palette);
    assert Distinct(palette) ==> Distinct(shuffled) by {
      if Distinct(palette) {
        PermutationKeepsDistinct(palette, shuffled);
      }
    }
    ClearDualGoal([Target(shuffled[0], amount), Target(shuffled[1], amount)])
  }

  /** generateGoal: the goal type rotates with the level through the tier's goal types; the amount is the target
      range scaled by the progress in the tier; a clear_color goal names one random palette colour, a clear_dual
      goal the first two colours of a shuffle of the palette. An index past the list of goal types, or a goal type
      without a target range, throws in the source and is a Failure here. */
  function GenerateGoal(config: TierConfig, level: int, palette: seq<Color>, colorDraw: nat, shuffleDraws: Draws)
    : (r: Result<Goal>)
    requires config.levels.0 != config.levels.1 && |palette| >= 2
    ensures r.Success? <==> GoalTypeAt(config, level).Some? && GoalTypeAt(config, level).value in config.targetRanges
    ensures r.Success? ==> Kind(r.value) == GoalTypeAt(config, level).value
    ensures r.Success? ==> forall c :: c in GoalColors(r.value) ==> c in palette
    ensures r.Success? && r.value.ClearDualGoal? ==>
              |r.value.targets| == 2 && r.value.targets[0].amount == r.value.targets[1].amount
              && (Distinct(palette) ==> r.value.targets[0].color != r.value.targets[1].color)
    ensures r.Success? ==> forall a :: a in GoalAmounts(r.value) ==>
              a == TargetAmount(config.targetRanges[Kind(r.value)], ProgressInTier(level, config))
  {
    var gt := GoalTypeAt(config, level);
    if gt.None? then Failure("Unknown goal type: undefined")
    else if gt.value !in config.targetRanges then Failure("no target range for the goal type")
    else
      var range := config.targetRanges[gt.value];
      var amount := TargetAmount(range, ProgressInTier(level, config));
      match gt.value
      case ClearColor => Success(ClearColorGoal(RandomColor(palette, colorDraw), amount))
      case MakeMatches => Success(MakeMatchesGoal(amount))
      case ClearDual => Success(DualGoal(palette, shuffleDraws, amount))
  }

  /** Inside the tier's own range of levels, every amount of a generated goal lies in the target range of its
      goal type, from the low end at the tier's first level to the high end at its last. */
  lemma GoalAmountInRange(config: TierConfig, level: int, palette: seq<Color>, colorDraw: nat, shuffleDraws: Draws)
    requires WellFormed(config) && |palette| >= 2
    requires config.levels.0 <= level <= config.levels.1
    requires GenerateGoal(config, level, palette, colorDraw, shuffleDraws).Success?
    ensures var goal := GenerateGoal(config, level, palette, colorDraw, shuffleDraws).value;
            forall a :: a in GoalAmounts(goal) ==> config.targetRanges[Kind(goal)].0 <= a <= config.targetRanges[Kind(goal)].1
  {
  }

  /** From the tier's first level on, the goal type repeats after as many levels as the tier has goal types. */
  lemma GoalTypeRotates(config: TierConfig, level: int)
    requires |config.goalTypes| > 0 && level >= config.levels.0
    ensures GoalTypeAt(config, level + |config.goalTypes|) == GoalTypeAt(config, level)
  {
    var n, a := |config.goalTypes|, level - config.levels.0;
    RemainderOfShift(a, n);
  }

  /** Adding the divisor does not change the remainder. */
  lemma RemainderOfShift(a: int, n: int)
    requires n > 0
    ensures (a + n) % n == a % n
  {
    var q, r := a / n, a % n;
    assert a + n == n * (q + 1) + r;
    var q', r' := (a + n) / n, (a + n) % n;
    var k := q' - q - 1;
    assert n * k == r - r';
    if k > 0 {
      MultipleAtLeast(n, k);
    } else if k < 0 {
      MultipleAtLeast(n, -k);
    }
  }

  lemma MultipleAtLeast(n: int, k: int)
    requires n > 0 && k >= 1
    ensures n * k >= n && n * -k <= -n
  {
    assert n * k - n == n * (k - 1);
  }

  /** For the level's own tier and palette, generateGoal throws exactly for the levels below 1 whose distance to
      51 (the first level of the Expert tier, where they fall back) is not a multiple of its three goal types. */
  lemma GoalSucceedsIff(level: int, colorDraw: nat, shuffleDraws: Draws)
    ensures var (tier, config) := TierForLevel(level);
            GenerateGoal(config, level, ColorsForTier(tier), colorDraw, shuffleDraws).Success?
            <==> level > 0 || (51 - level) % 3 == 0
  {
    var (tier, config) := TierForLevel(level);
    AllTiersWellFormed(tier);
    PaletteHasThreeColors(tier);
    if tier == 4 {
      assert config == Expert();
    }
  }

  // ---------------------------------------------------------------------------------------------
  // calculateMoveLimit
  // ---------------------------------------------------------------------------------------------

  /** calculateMoveLimit: no limit for a tier without one; otherwise Math.floor(max - (max - min) * progress)
      where [max, min] is the tier's moveLimit pair in the order written. The table lists the smaller number
      first, so the limit moves from the first number at the tier's first level to the second at its last. */
  function CalculateMoveLimit(config: TierConfig, level: int): (limit: Option<int>)
    requires config.levels.0 != config.levels.1
    ensures limit.None? <==> config.moveLimit.None?
    ensures limit.Some? && config.levels.0 < config.levels.1 && config.moveLimit.value.0 <= config.moveLimit.value.1
            && config.levels.0 <= level <= config.levels.1 ==>
              config.moveLimit.value.0 <= limit.value <= config.moveLimit.value.1
  {
    match config.moveLimit
    case None => None
    case Some((max, min)) => Some(TargetAmount((max, min), ProgressInTier(level, config)))
  }

  /** Within a tier the move limit never falls as the level number rises: with the table's pairs written low
      first, later levels of a tier get at least as many moves as earlier ones. */
  lemma MoveLimitRises(config: TierConfig, l1: int, l2: int)
    requires config.levels.0 < config.levels.1 && config.moveLimit.Some?
    requires config.moveLimit.value.0 <= config.moveLimit.value.1 && l1 <= l2
    ensures CalculateMoveLimit(config, l1).value <= CalculateMoveLimit(config, l2).value
  {
    ProgressMonotonic(config, l1, l2);
    TargetAmountGrows(config.moveLimit.value, ProgressInTier(l1, config), ProgressInTier(l2, config));
  }

  /** The limit is the pair's first number at the tier's first level and its second number at the last. */
  lemma MoveLimitEnds(config: TierConfig)
    requires config.levels.0 < config.levels.1 && config.moveLimit.Some?
    ensures CalculateMoveLimit(config, config.levels.0) == Some(config.moveLimit.value.0)
    ensures CalculateMoveLimit(config, config.levels.1) == Some(config.moveLimit.value.1)
  {
  }

  /** The four tiers: no limit in Beginner; 35 to 45 moves in Intermediate, 28 to 35 in Advanced, 22 to 28 in
      Expert, from the first level of the tier to its last. */
  lemma MoveLimitsOfTiers()
    ensures forall level :: CalculateMoveLimit(Beginner(), level) == None
    ensures CalculateMoveLimit(Intermediate(), 11) == Some(35) && CalculateMoveLimit(Intermediate(), 25) == Some(45)
    ensures CalculateMoveLimit(Advanced(), 26) == Some(28) && CalculateMoveLimit(Advanced(), 50) == Some(35)
    ensures CalculateMoveLimit(Expert(), 51) == Some(22) && CalculateMoveLimit(Expert(), 999) == Some(28)
  {
    MoveLimitEnds(Intermediate());
    MoveLimitEnds(Advanced());
    MoveLimitEnds(Expert());
  }

  // ---------------------------------------------------------------------------------------------
  // validateGridForGoal
  // ---------------------------------------------------------------------------------------------

  /** The colours that occur on the grid: the keys of countColors' result. */
  function ColoursPresent(g: Grid): (present: set<Color>)
    ensures forall c :: c in present <==> Crystal(c) in multiset(Flatten(g))
  {
    EveryColorNamed();
    set c | c in ColorNames() && ColorCount(g, c) > 0
  }

  /** What validateGridForGoal accepts: ten crystals to spare over each colour target, and for a match goal at
      least as many different colours on the grid as the palette has. */
  predicate GridFitsGoal(g: Grid, goal: Goal, palette: seq<Color>)
  {
    match goal
    case ClearColorGoal(c, amount) => ColorCount(g, c) >= amount + 10
    case ClearDualGoal(targets) => forall t :: t in targets ==> ColorCount(g, t.color) >= t.amount + 10
    case MakeMatchesGoal(_) => |ColoursPresent(g)| >= |palette|
  }

  /** validateGridForGoal, from the colour counts of countColors (a missing key counts as 0). */
  method ValidateGridForGoal(grid: Grid, goal: Goal, palette: seq<Color>) returns (valid: bool)
    ensures valid <==> GridFitsGoal(grid, goal, palette)
  {
    var counts := CountColors(grid);
    match goal {
      case ClearColorGoal(c, amount) =>
        valid := Get(counts, c) >= amount + 10;
      case ClearDualGoal(targets) =>
        valid := forall i :: 0 <= i < |targets| ==> Get(counts, targets[i].color) >= targets[i].amount + 10;
      case MakeMatchesGoal(_) =>
        EveryColorNamed();
        assert counts.Keys == ColoursPresent(grid);
        valid := |counts.Keys| >= |palette|;
    }
  }

  /** A grid whose every row and column holds palette colours has only palette colours in its flattened cells. */
  lemma {:induction false} FlattenCells(g: Grid, palette: seq<Color>)
    requires forall r, c :: 0 <= r < |g| && 0 <= c < |g[r]| ==> g[r][c].Crystal? && g[r][c].color in palette
    ensures forall x :: x in Flatten(g) ==> x.Crystal? && x.color in palette
  {
    if g != [] {
      FlattenCells(g[..|g| - 1], palette);
    }
  }

  /** A sequence without repeats has as many different colours as elements. */
  lemma {:induction false} DistinctSetSize(s: seq<Color>)
    requires Distinct(s)
    ensures |set c | c in s| == |s|
  {
    if s != [] {
      var t := s[1..];
      assert Distinct(t);
      DistinctSetSize(t);
      assert (set c | c in s) == {s[0]} + (set c | c in t);
      assert s[0] !in (set c | c in t);
    }
  }

  /** For a grid of palette colours and a palette without repeats, the make_matches check passes exactly when every
      palette colour occurs on the grid. */
  lemma MatchGoalFitsIffAllPresent(g: Grid, amount: int, palette: seq<Color>)
    requires Distinct(palette)
    requires forall x :: x in Flatten(g) ==> x.Crystal? && x.color in palette
    ensures GridFitsGoal(g, MakeMatchesGoal(amount), palette) <==> forall c :: c in palette ==> ColorCount(g, c) > 0
  {
    var present, all := ColoursPresent(g), set c | c in palette;
    DistinctSetSize(palette);
    forall c | c in present
      ensures c in all
    {
      assert Crystal(c) in multiset(Flatten(g));
    }
    if forall c :: c in palette ==> ColorCount(g, c) > 0 {
      EveryColorNamed();
      assert present == all;
    } else {
      var c :| c in palette && ColorCount(g, c) == 0;
      assert c in all - present;
      assert |all - present| == |all| - |present|;
    }
  }

  // ---------------------------------------------------------------------------------------------
  // generateLevel
  // ---------------------------------------------------------------------------------------------

  datatype Level = Level(levelNumber: int, tier: nat, grid: Grid, goal: Goal, moveLimit: Option<int>,
                         availableColors: seq<Color>)

  /** The grid size of a tier: the fixed size, or one picked at random from the list (an empty list, which no tier
      has, gives an undefined size and so an empty grid). */
  function GridSizeOf(choice: Choice, draw: nat): (size: nat)
    ensures choice.Fixed? ==> size == choice.n
    ensures choice.Varies? && |choice.choices| > 0 ==> size in choice.choices
  {
    match choice
    case Fixed(n) => n
    case Varies(sizes) => if |sizes| == 0 then 0 else sizes[draw % |sizes|]
  }

  /** generateGrid's default number of attempts. */
  const GridAttempts := 100

  /** generateLevel's bound on grids built until one passes validateGridForGoal. */
  const MaxLevelAttempts := 10

  /** generateLevel: the level's tier and its palette, the goal (whose failure is the source's throw), then grids
      built until one fits the goal or ten have been built, then the move limit. Each grid build b uses the draws
      gridDraws(b). The grid always holds palette colours only and no match. */
  method GenerateLevel(level: int, sizeDraw: nat, colorDraw: nat, shuffleDraws: Draws, gridDraws: nat -> Draws)
    returns (r: Result<Level>, ghost attempts: nat)
    ensures r.Success? <==>
              GenerateGoal(TierForLevel(level).1, level, ColorsForTier(TierForLevel(level).0), colorDraw, shuffleDraws).Success?
    ensures r.Success? ==>
              && r.value.levelNumber == level
              && r.value.tier == TierForLevel(level).0
              && r.value.availableColors == ColorsForTier(r.value.tier)
              && r.value.goal == GenerateGoal(TierForLevel(level).1, level, r.value.availableColors, colorDraw, shuffleDraws).value
              && r.value.moveLimit == CalculateMoveLimit(TierForLevel(level).1, level)
    ensures r.Success? ==>
              && IsSquare(r.value.grid) && |r.value.grid| == GridSizeOf(TierForLevel(level).1.gridSize, sizeDraw)
              && MatchSet(r.value.grid) == {}
              && forall x :: x in Flatten(r.value.grid) ==> x.Crystal? && x.color in r.value.availableColors
    ensures r.Success? ==> 1 <= attempts <= MaxLevelAttempts
    ensures r.Success? && attempts < MaxLevelAttempts ==> GridFitsGoal(r.value.grid, r.value.goal, r.value.availableColors)
  {
    var (tier, config) := TierForLevel(level);
    var palette := ColorsForTier(tier);
    AllTiersWellFormed(tier);
    PaletteShape(tier);
    PaletteHasThreeColors(tier);
    var gridSize := GridSizeOf(config.gridSize, sizeDraw);
    var goalResult := GenerateGoal(config, level, palette, colorDraw, shuffleDraws);
    if goalResult.Failure? {
      return Failure(goalResult.error), 0;
    }
    var goal := goalResult.value;
    var grid, valid := BuildGrid(gridSize, palette, goal, gridDraws(0));
    var builds := 1;
    while !valid && builds < MaxLevelAttempts
      invariant 1 <= builds <= MaxLevelAttempts
      invariant IsSquare(grid) && |grid| == gridSize && MatchSet(grid) == {}
      invariant forall x :: x in Flatten(grid) ==> x.Crystal? && x.color in palette
      invariant valid <==> GridFitsGoal(grid, goal, palette)
      decreases MaxLevelAttempts - builds
    {
      grid, valid := BuildGrid(gridSize, palette, goal, gridDraws(builds));
      builds := builds + 1;
    }
    attempts := builds;
    var moveLimit := CalculateMoveLimit(config, level);
    r := Success(Level(level, tier, grid, goal, moveLimit, palette));
  }

  /** One pass of generateLevel's do-while body: a grid from generateGrid and its validation against the goal. */
  method BuildGrid(size: nat, palette: seq<Color>, goal: Goal, draws: Draws) returns (grid: Grid, valid: bool)
    requires Distinct(palette) && |palette| >= 3
    ensures IsSquare(grid) && |grid| == size && MatchSet(grid) == {}
    ensures forall x :: x in Flatten(grid) ==> x.Crystal? && x.color in palette
    ensures valid <==> GridFitsGoal(grid, goal, palette)
  {
    ghost var fellBack;
    grid, fellBack := GenerateGrid(size, palette, GridAttempts, draws);
    FlattenCells(grid, palette);
    valid := ValidateGridForGoal(grid, goal, palette);
  }
}

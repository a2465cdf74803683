/**
 * The game session of src/hooks/useGameState.js: the level being played, its grid, the selected cell, the
 * move count, the progress towards the goal and the completion flag, changed by loading a level, clicking
 * cells and swapping them.
 *
 * The hook's state cells become the fields of GameSession and its callbacks become methods. The timers that
 * stage a swap are collapsed: a swap runs to the end of its cascades in one step, and the cleanup that the
 * later timers perform is the separate method FinishAnimations.
 */
module GameState {
  import opened Wrappers
  import opened Colors
  import opened GridHelpers
  import opened MatchDetector
  import opened Gravity
  import opened Tiers
  import opened LevelGenerator

  // ---------------------------------------------------------------------------------------------
  // Progress towards the goal
  // ---------------------------------------------------------------------------------------------

  /** A key of the progress object: a colour name, or `matches`. */
  datatype ProgressKey = ColorKey(color: Color) | MatchesKey

  type Progress = map<ProgressKey, int>

  /** `progress[key] || 0`: a missing key reads as 0. */
  function Value(p: Progress, k: ProgressKey): int
  {
    if k in p then p[k] else 0
  }

  /** The keys a goal tracks. */
  function GoalKeys(goal: Goal): set<ProgressKey>
  {
    match goal
    case ClearColorGoal(c, _) => {ColorKey(c)}
    case ClearDualGoal(targets) => set t | t in targets :: ColorKey(t.color)
    case MakeMatchesGoal(_) => {MatchesKey}
  }

  /** The progress loadLevel starts from: one key per tracked colour, or `matches`, each at 0. */
  function InitialProgress(goal: Goal): (p: Progress)
    ensures p.Keys == GoalKeys(goal)
    ensures forall k :: k in p ==> p[k] == 0
  {
    map k | k in GoalKeys(goal) :: 0
  }

  /** loadLevel's progress initialisation, with the forEach over the targets of a clear_dual goal. */
  method StartingProgress(goal: Goal) returns (prog: Progress)
    ensures prog == InitialProgress(goal)
  {
    match goal {
      case ClearColorGoal(c, _) =>
        prog := map[ColorKey(c) := 0];
      case ClearDualGoal(targets) =>
        prog := map[];
        for i := 0 to |targets|
          invariant prog == InitialProgress(ClearDualGoal(targets[..i]))
        {
          assert targets[..i + 1] == targets[..i] + [targets[i]];
          prog := prog[ColorKey(targets[i].color) := 0];
        }
        assert targets[..|targets|] == targets;
      case MakeMatchesGoal(_) =>
        prog := map[MatchesKey := 0];
    }
  }

  /** checkGoalCompletion for a loaded level: every tracked value has reached its amount. A missing key never
      counts as reached (`undefined >= amount` is false in JavaScript). */
  predicate GoalComplete(goal: Goal, p: Progress): (done: bool)
    ensures done ==> GoalKeys(goal) <= p.Keys
  {
    match goal
    case ClearColorGoal(c, amount) => ColorKey(c) in p && p[ColorKey(c)] >= amount
    case ClearDualGoal(targets) => forall t :: t in targets ==> ColorKey(t.color) in p && p[ColorKey(t.color)] >= t.amount
    case MakeMatchesGoal(amount) => MatchesKey in p && p[MatchesKey] >= amount
  }

  /** The forEach of updateProgress over the targets of a clear_dual goal, one target after the other. */
  function AddTargets(p: Progress, targets: seq<Target>, cleared: map<Color, nat>): (q: Progress)
    ensures forall k :: k in p ==> k in q && q[k] >= p[k]
    ensures forall t :: t in targets ==> ColorKey(t.color) in q
    decreases |targets|
  {
    if targets == [] then p
    else
      var q := AddTargets(p, targets[..|targets| - 1], cleared);
      var c := targets[|targets| - 1].color;
      q[ColorKey(c) := Value(q, ColorKey(c)) + Get(cleared, c)]
  }

  /** The progress updateProgress computes: each tracked colour gains what the cascades cleared of it, or
      `matches` gains the number of cascade rounds. */
  function ProgressAfter(goal: Goal, p: Progress, cleared: map<Color, nat>, cascadeCount: nat): (q: Progress)
    ensures forall k :: k in p ==> k in q && q[k] >= p[k]
    ensures GoalKeys(goal) <= q.Keys
    ensures GoalComplete(goal, p) ==> GoalComplete(goal, q)
  {
    match goal
    case ClearColorGoal(c, _) => p[ColorKey(c) := Value(p, ColorKey(c)) + Get(cleared, c)]
    case ClearDualGoal(targets) => AddTargets(p, targets, cleared)
    case MakeMatchesGoal(_) => p[MatchesKey := Value(p, MatchesKey) + cascadeCount]
  }

  /** Adding the cleared counts of some targets keeps every key, adds the targets' keys, never lowers a value,
      and leaves every key that is not a target's untouched. */
  lemma {:induction false} AddTargetsGrows(p: Progress, targets: seq<Target>, cleared: map<Color, nat>)
    ensures AddTargets(p, targets, cleared).Keys == p.Keys + set t | t in targets :: ColorKey(t.color)
    ensures forall k :: k in p ==> AddTargets(p, targets, cleared)[k] >= p[k]
    ensures forall k :: k in p && k !in (set t | t in targets :: ColorKey(t.color)) ==> AddTargets(p, targets, cleared)[k] == p[k]
    decreases |targets|
  {
    if targets != [] {
      var front := targets[..|targets| - 1];
      AddTargetsGrows(p, front, cleared);
      assert targets == front + [targets[|targets| - 1]];
      assert (set t | t in targets :: ColorKey(t.color))
          == (set t | t in front :: ColorKey(t.color)) + {ColorKey(targets[|targets| - 1].color)};
    }
  }

  /** A colour no target names keeps its value. */
  lemma {:induction false} AddTargetsElsewhere(p: Progress, targets: seq<Target>, cleared: map<Color, nat>, c: Color)
    requires forall i :: 0 <= i < |targets| ==> targets[i].color != c
    ensures Value(AddTargets(p, targets, cleared), ColorKey(c)) == Value(p, ColorKey(c))
    decreases |targets|
  {
    if targets != [] {
      AddTargetsElsewhere(p, targets[..|targets| - 1], cleared, c);
    }
  }

  /** With targets of different colours, each target's value grows by exactly what was cleared of its colour. */
  lemma {:induction false} AddTargetsExact(p: Progress, targets: seq<Target>, cleared: map<Color, nat>)
    requires forall i, j :: 0 <= i < j < |targets| ==> targets[i].color != targets[j].color
    ensures forall i :: 0 <= i < |targets| ==>
              Value(AddTargets(p, targets, cleared), ColorKey(targets[i].color))
              == Value(p, ColorKey(targets[i].color)) + Get(cleared, targets[i].color)
    decreases |targets|
  {
    if targets != [] {
      var n := |targets| - 1;
      var front, last := targets[..n], targets[n];
      AddTargetsExact(p, front, cleared);
      AddTargetsElsewhere(p, front, cleared, last.color);
      forall i | 0 <= i < n
        ensures Value(AddTargets(p, targets, cleared), ColorKey(targets[i].color))
                == Value(p, ColorKey(targets[i].color)) + Get(cleared, targets[i].color)
      {
        assert targets[i] == front[i];
      }
    }
  }

  /** updateProgress changes only the goal's keys, adds them when missing, and never lowers a value. */
  lemma ProgressOnlyGrows(goal: Goal, p: Progress, cleared: map<Color, nat>, cascadeCount: nat)
    ensures ProgressAfter(goal, p, cleared, cascadeCount).Keys == p.Keys + GoalKeys(goal)
    ensures forall k :: k in p ==> ProgressAfter(goal, p, cleared, cascadeCount)[k] >= p[k]
    ensures forall k :: k in p && k !in GoalKeys(goal) ==> ProgressAfter(goal, p, cleared, cascadeCount)[k] == p[k]
  {
    if goal.ClearDualGoal? {
      AddTargetsGrows(p, goal.targets, cleared);
    }
  }

  /** A goal once complete stays complete while its values do not fall. */
  lemma CompletionMonotonic(goal: Goal, p: Progress, q: Progress)
    requires forall k :: k in p ==> k in q && q[k] >= p[k]
    requires GoalComplete(goal, p)
    ensures GoalComplete(goal, q)
  {
  }

  /** A goal that asks for a positive amount of everything it tracks is not complete at the start of a level. */
  lemma NotCompleteAtStart(goal: Goal)
    requires |GoalAmounts(goal)| > 0 && forall a :: a in GoalAmounts(goal) ==> a > 0
    ensures !GoalComplete(goal, InitialProgress(goal))
  {
    var p := InitialProgress(goal);
    assert GoalAmounts(goal)[0] in GoalAmounts(goal);
    match goal
    case ClearColorGoal(c, _) =>
      assert ColorKey(c) in GoalKeys(goal);
    case MakeMatchesGoal(_) =>
      assert MatchesKey in GoalKeys(goal);
    case ClearDualGoal(targets) =>
      assert targets[0] in targets && ColorKey(targets[0].color) in GoalKeys(goal);
  }

  /** One more target of the forEach adds what was cleared of its colour. */
  lemma AddTargetsStep(p: Progress, targets: seq<Target>, cleared: map<Color, nat>, i: nat)
    requires i < |targets|
    ensures var q, c := AddTargets(p, targets[..i], cleared), targets[i].color;
      AddTargets(p, targets[..i + 1], cleared) == q[ColorKey(c) := Value(q, ColorKey(c)) + Get(cleared, c)]
  {
    assert targets[..i + 1][..i] == targets[..i];
  }

  /** updateProgress's new progress, with the forEach over the targets of a clear_dual goal. */
  method AddProgress(goal: Goal, p: Progress, cleared: map<Color, nat>, cascadeCount: nat) returns (newProgress: Progress)
    ensures newProgress == ProgressAfter(goal, p, cleared, cascadeCount)
  {
    newProgress := p;
    match goal {
      case ClearColorGoal(c, _) =>
        newProgress := newProgress[ColorKey(c) := Value(newProgress, ColorKey(c)) + Get(cleared, c)];
      case ClearDualGoal(targets) =>
        for i := 0 to |targets|
          invariant newProgress == AddTargets(p, targets[..i], cleared)
        {
          AddTargetsStep(p, targets, cleared, i);
          var c := targets[i].color;
          newProgress := newProgress[ColorKey(c) := Value(newProgress, ColorKey(c)) + Get(cleared, c)];
        }
        assert targets[..|targets|] == targets;
      case MakeMatchesGoal(_) =>
        newProgress := newProgress[MatchesKey := Value(newProgress, MatchesKey) + cascadeCount];
    }
  }

  // ---------------------------------------------------------------------------------------------
  // The cells a cascade replaced
  // ---------------------------------------------------------------------------------------------

  /** Position p is before q in row-major order. */
  predicate RowMajorBefore(p: Pos, q: Pos)
  {
    Before(p.row, p.col, q.row, q.col)
  }

  /** The positions where two grids of one size differ, listed once each in row-major order. */
  ghost predicate ListsChanges(cells: seq<Pos>, before: Grid, after: Grid)
    requires IsSquare(before) && IsSquare(after) && |before| == |after|
  {
    && (forall p :: p in cells <==> InGrid(after, p) && before[p.row][p.col] != after[p.row][p.col])
    && (forall i, j :: 0 <= i < j < |cells| ==> RowMajorBefore(cells[i], cells[j]))
  }

  /** The newCells loop of attemptSwap: every position whose cell differs between the swapped grid and the final
      grid, row by row. */
  method ChangedCells(before: Grid, after: Grid) returns (cells: seq<Pos>)
    requires IsSquare(before) && IsSquare(after) && |before| == |after|
    ensures ListsChanges(cells, before, after)
  {
    cells := [];
    for row := 0 to |after|
      invariant forall p :: p in cells <==> InGrid(after, p) && p.row < row && before[p.row][p.col] != after[p.row][p.col]
      invariant forall i, j :: 0 <= i < j < |cells| ==> RowMajorBefore(cells[i], cells[j])
      invariant forall i :: 0 <= i < |cells| ==> cells[i].row < row
    {
      for col := 0 to |after[row]|
        invariant forall p :: p in cells <==>
                    InGrid(after, p) && Before(p.row, p.col, row, col) && before[p.row][p.col] != after[p.row][p.col]
        invariant forall i, j :: 0 <= i < j < |cells| ==> RowMajorBefore(cells[i], cells[j])
        invariant forall i :: 0 <= i < |cells| ==> Before(cells[i].row, cells[i].col, row, col)
      {
        if before[row][col] != after[row][col] {
          cells := cells + [Pos(row, col)];
        }
      }
    }
  }

  // ---------------------------------------------------------------------------------------------
  // The session
  // ---------------------------------------------------------------------------------------------

  /** The values of the session's fields at one moment. */
  datatype Snapshot = Snapshot(
    level: Option<Level>,
    grid: Grid,
    selectedCell: Option<Pos>,
    moveCount: nat,
    progress: Progress,
    isLevelComplete: bool,
    newCells: seq<Pos>,
    currentCombo: nat,
    lastCascadeCount: nat)

  /** t is s with at most the selection changed. */
  predicate SelectionOnly(s: Snapshot, t: Snapshot)
  {
    t == s.(selectedCell := t.selectedCell)
  }

  /** The state loadLevel leaves after s: the generated level and its grid, no moves, no selection, not complete, and
      the goal's progress keys at 0; the animation and combo fields are not reset. */
  ghost predicate Loaded(s: Snapshot, t: Snapshot, levelNumber: int, sizeDraw: nat, colorDraw: nat, shuffleDraws: Draws)
  {
    && t.level.Some?
    && t.level.value.levelNumber == levelNumber
    && t.level.value.tier == TierForLevel(levelNumber).0
    && t.level.value.availableColors == ColorsForTier(t.level.value.tier)
    && GenerateGoal(TierForLevel(levelNumber).1, levelNumber, ColorsForTier(TierForLevel(levelNumber).0), colorDraw, shuffleDraws).Success?
    && t.level.value.goal == GenerateGoal(TierForLevel(levelNumber).1, levelNumber, t.level.value.availableColors, colorDraw, shuffleDraws).value
    && t.level.value.moveLimit == CalculateMoveLimit(TierForLevel(levelNumber).1, levelNumber)
    && IsSquare(t.grid) && |t.grid| == GridSizeOf(TierForLevel(levelNumber).1.gridSize, sizeDraw) && MatchSet(t.grid) == {}
    && t == s.(level := t.level, grid := t.level.value.grid, moveCount := 0, selectedCell := None, isLevelComplete := false,
               progress := InitialProgress(t.level.value.goal))
  }

  /** The state after a swap that made a match, from s: the move counts; once the cascades settle (outcome) the grid is
      their final grid, newCells lists the cells they replaced, the combo fields record the round, and the progress
      grows; a cascade that did not settle within its fuel leaves the swapped grid. */
  ghost predicate MoveApplied(s: Snapshot, t: Snapshot, swapped: Grid, outcome: Option<CascadeResult>)
  {
    && s.level.Some?
    && match outcome
       case None => t == s.(grid := swapped, moveCount := s.moveCount + 1)
       case Some(result) =>
         var newProgress := ProgressAfter(s.level.value.goal, s.progress, result.totalCleared, result.cascadeCount);
         && IsSquare(swapped) && IsSquare(result.grid) && |result.grid| == |swapped|
         && ListsChanges(t.newCells, swapped, result.grid)
         && t == s.(grid := result.grid, moveCount := s.moveCount + 1, newCells := t.newCells,
                    lastCascadeCount := result.cascadeCount, currentCombo := s.currentCombo + 1, progress := newProgress,
                    isLevelComplete := s.isLevelComplete || GoalComplete(s.level.value.goal, newProgress))
  }

  /** What attemptSwap does from s: nothing without a level or when the swapped grid holds no match; otherwise the
      move is applied with the cascades that follow the swap. */
  ghost predicate SwapStep(s: Snapshot, t: Snapshot, pos1: Pos, pos2: Pos, refills: nat -> Refill, fuel: nat)
    requires IsSquare(s.grid) && InGrid(s.grid, pos1) && InGrid(s.grid, pos2)
  {
    var swapped := SwapCells(s.grid, pos1, pos2);
    if s.level.None? || |s.level.value.availableColors| == 0 || MatchSet(swapped) == {} then t == s
    else MoveApplied(s, t, swapped, Cascade(swapped, s.level.value.availableColors, refills, 0, fuel))
  }

  /** The state loadLevel computes from s, or None when generateLevel throws. */
  method LoadedState(s: Snapshot, levelNumber: int, sizeDraw: nat, colorDraw: nat, shuffleDraws: Draws, gridDraws: nat -> Draws)
    returns (t: Option<Snapshot>)
    ensures t.Some? <==>
              GenerateGoal(TierForLevel(levelNumber).1, levelNumber, ColorsForTier(TierForLevel(levelNumber).0), colorDraw, shuffleDraws).Success?
    ensures t.Some? ==> Loaded(s, t.value, levelNumber, sizeDraw, colorDraw, shuffleDraws)
    ensures t.Some? ==> |t.value.level.value.availableColors| > 0
  {
    var r;
    ghost var attempts;
    r, attempts := GenerateLevel(levelNumber, sizeDraw, colorDraw, shuffleDraws, gridDraws);
    if r.Failure? {
      return None;
    }
    var newLevel := r.value;
    PaletteHasThreeColors(newLevel.tier);
    var newProgress := StartingProgress(newLevel.goal);
    t := Some(s.(level := Some(newLevel), grid := newLevel.grid, moveCount := 0, selectedCell := None,
                 isLevelComplete := false, progress := newProgress));
  }

  /** The state the matching branch of attemptSwap leaves from s, with its timers run to the end of the cascades. */
  method MovedState(s: Snapshot, swappedGrid: Grid, refills: nat -> Refill, fuel: nat) returns (t: Snapshot)
    requires s.level.Some? && |s.level.value.availableColors| > 0 && IsSquare(swappedGrid)
    ensures MoveApplied(s, t, swappedGrid, Cascade(swappedGrid, s.level.value.availableColors, refills, 0, fuel))
    ensures IsSquare(t.grid) && |t.grid| == |swappedGrid| && t.level == s.level && t.selectedCell == s.selectedCell
    ensures t.moveCount == s.moveCount + 1
    ensures Cascade(swappedGrid, s.level.value.availableColors, refills, 0, fuel).Some? ==> MatchSet(t.grid) == {}
  {
    var outcome := ProcessCascades(swappedGrid, s.level.value.availableColors, refills, fuel);
    if outcome.None? {
      return s.(grid := swappedGrid, moveCount := s.moveCount + 1);
    }
    var result := outcome.value;
    var changed := ChangedCells(swappedGrid, result.grid);
    var goal := s.level.value.goal;
    var newProgress := AddProgress(goal, s.progress, result.totalCleared, result.cascadeCount);
    t := s.(grid := result.grid, moveCount := s.moveCount + 1, newCells := changed,
            lastCascadeCount := result.cascadeCount, currentCombo := s.currentCombo + 1, progress := newProgress,
            isLevelComplete := s.isLevelComplete || GoalComplete(goal, newProgress));
  }

  /** Every tier asks for a positive amount of each goal type. */
  lemma TargetsPositive(tier: nat)
    requires 1 <= tier <= 4
    ensures forall g :: g in ConfigOf(tier).targetRanges ==> ConfigOf(tier).targetRanges[g].0 > 0
  {
  }

  /** The goal generated for a level number from 1 to 999 tracks something, and asks for a positive amount of it. */
  lemma FreshGoalNotComplete(levelNumber: int, colorDraw: nat, shuffleDraws: Draws)
    requires 1 <= levelNumber <= 999
    ensures var (tier, config) := TierForLevel(levelNumber);
            var r := GenerateGoal(config, levelNumber, ColorsForTier(tier), colorDraw, shuffleDraws);
            r.Success? ==> !GoalComplete(r.value, InitialProgress(r.value))
  {
    var (tier, config) := TierForLevel(levelNumber);
    var palette := ColorsForTier(tier);
    AllTiersWellFormed(tier);
    PaletteHasThreeColors(tier);
    var r := GenerateGoal(config, levelNumber, palette, colorDraw, shuffleDraws);
    if r.Success? {
      GoalAmountInRange(config, levelNumber, palette, colorDraw, shuffleDraws);
      TargetsPositive(tier);
      assert |GoalAmounts(r.value)| > 0 by {
        if r.value.ClearDualGoal? {
          assert |r.value.targets| == 2;
        }
      }
      NotCompleteAtStart(r.value);
    }
  }

  /** A level freshly loaded for a level number from 1 to 999 is not complete yet. */
  lemma FreshLevelNotComplete(s: Snapshot, t: Snapshot, levelNumber: int, sizeDraw: nat, colorDraw: nat, shuffleDraws: Draws)
    requires 1 <= levelNumber <= 999
    requires Loaded(s, t, levelNumber, sizeDraw, colorDraw, shuffleDraws)
    ensures !t.isLevelComplete && !GoalComplete(t.level.value.goal, t.progress)
  {
    FreshGoalNotComplete(levelNumber, colorDraw, shuffleDraws);
  }

  /** A click's swap never takes anything back: the level stays, the move count does not fall, a complete level
      stays complete, every progress value is kept or grows, and the grid stays square of the same size. */
  lemma SwapKeepsGains(s: Snapshot, t: Snapshot, pos1: Pos, pos2: Pos, refills: nat -> Refill, fuel: nat)
    requires IsSquare(s.grid) && InGrid(s.grid, pos1) && InGrid(s.grid, pos2)
    requires SwapStep(s, t, pos1, pos2, refills, fuel)
    ensures t.level == s.level && t.moveCount >= s.moveCount
    ensures s.isLevelComplete ==> t.isLevelComplete
    ensures forall k :: k in s.progress ==> k in t.progress && t.progress[k] >= s.progress[k]
    ensures IsSquare(t.grid) && |t.grid| == |s.grid|
  {
    var swapped := SwapCells(s.grid, pos1, pos2);
    if !(s.level.None? || |s.level.value.availableColors| == 0 || MatchSet(swapped) == {}) {
      var outcome := Cascade(swapped, s.level.value.availableColors, refills, 0, fuel);
      if outcome.Some? {
        var r := outcome.value;
        ProgressOnlyGrows(s.level.value.goal, s.progress, r.totalCleared, r.cascadeCount);
      }
    }
  }

  /** The state cells of useGameState that the game logic reads and writes. isProcessing, invalidSwap and
      matchingCells only stage the animations and are not modelled. */
  class GameSession {
    var level: Option<Level>
    var grid: Grid
    var selectedCell: Option<Pos>
    var moveCount: nat
    var progress: Progress
    var isLevelComplete: bool
    var newCells: seq<Pos>
    var currentCombo: nat
    var lastCascadeCount: nat

    function State(): Snapshot
      reads this
    {
      Snapshot(level, grid, selectedCell, moveCount, progress, isLevelComplete, newCells, currentCombo, lastCascadeCount)
    }

    /** The grid is square, a selected cell lies on it, and a loaded level has colours to refill with. */
    ghost predicate Valid()
      reads this
    {
      && IsSquare(grid)
      && (selectedCell.Some? ==> InGrid(grid, selectedCell.value))
      && (level.Some? ==> |level.value.availableColors| > 0)
    }

    /** The initial values of the hook's useState calls. */
    constructor()
      ensures Valid()
      ensures State() == Snapshot(None, [], None, 0, map[], false, [], 0, 0)
    {
      level := None;
      grid := [];
      selectedCell := None;
      moveCount := 0;
      progress := map[];
      isLevelComplete := false;
      newCells := [];
      currentCombo := 0;
      lastCascadeCount := 0;
    }

    /** loadLevel. When generateLevel throws (its goal fails), nothing is set. */
    method LoadLevel(levelNumber: int, sizeDraw: nat, colorDraw: nat, shuffleDraws: Draws, gridDraws: nat -> Draws)
      returns (loaded: bool)
      requires Valid()
      modifies this
      ensures Valid()
      ensures loaded <==>
                GenerateGoal(TierForLevel(levelNumber).1, levelNumber, ColorsForTier(TierForLevel(levelNumber).0), colorDraw, shuffleDraws).Success?
      ensures loaded ==> Loaded(old(State()), State(), levelNumber, sizeDraw, colorDraw, shuffleDraws)
      ensures !loaded ==> State() == old(State())
    {
      var t := LoadedState(State(), levelNumber, sizeDraw, colorDraw, shuffleDraws, gridDraws);
      if t.None? {
        return false;
      }
      SetState(t.value);
      loaded := true;
    }

    /** Sets every field to the snapshot's value. */
    method SetState(t: Snapshot)
      modifies this
      ensures State() == t
    {
      level, grid, selectedCell, moveCount, progress := t.level, t.grid, t.selectedCell, t.moveCount, t.progress;
      isLevelComplete, newCells, currentCombo, lastCascadeCount := t.isLevelComplete, t.newCells, t.currentCombo, t.lastCascadeCount;
    }

    /** updateProgress: the goal's progress grows by the cascades' result, and the level becomes complete when the
        goal is reached; it never becomes incomplete again here. Nothing happens before a level is loaded. */
    method UpdateProgress(clearedColors: map<Color, nat>, cascadeCount: nat)
      requires Valid()
      modifies this
      ensures Valid()
      ensures level.None? ==> State() == old(State())
      ensures level.Some? ==>
                var newProgress := ProgressAfter(level.value.goal, old(progress), clearedColors, cascadeCount);
                State() == old(State()).(progress := newProgress,
                                         isLevelComplete := old(isLevelComplete) || GoalComplete(level.value.goal, newProgress))
    {
      if level.None? {
        return;
      }
      var newProgress := AddProgress(level.value.goal, progress, clearedColors, cascadeCount);
      if GoalComplete(level.value.goal, newProgress) {
        isLevelComplete := true;
      }
      progress := newProgress;
    }

    /** attemptSwap. The move limit is not consulted: a matching swap counts whatever the move count already is. */
    method AttemptSwap(pos1: Pos, pos2: Pos, refills: nat -> Refill, fuel: nat)
      requires Valid() && InGrid(grid, pos1) && InGrid(grid, pos2)
      modifies this
      ensures Valid() && |grid| == |old(grid)|
      ensures SwapStep(old(State()), State(), pos1, pos2, refills, fuel)
    {
      if level.None? {
        return;
      }
      var swappedGrid := SwapCells(grid, pos1, pos2);
      var matches := FindMatches(swappedGrid);
      if |matches| == 0 {
        return;
      }
      var t := MovedState(State(), swappedGrid, refills, fuel);
      SetState(t);
    }

    /** handleCellClick: ignored once the level is complete; otherwise it selects a cell, deselects the selected
        cell, swaps with an adjacent selected cell (and clears the selection), or moves the selection. */
    method HandleCellClick(row: int, col: int, refills: nat -> Refill, fuel: nat)
      requires Valid() && IsValidPosition(row, col, |grid|)
      modifies this
      ensures Valid()
      ensures old(isLevelComplete) ==> State() == old(State())
      ensures !old(isLevelComplete) && old(selectedCell).None? ==>
                SelectionOnly(old(State()), State()) && selectedCell == Some(Pos(row, col))
      ensures !old(isLevelComplete) && old(selectedCell) == Some(Pos(row, col)) ==>
                SelectionOnly(old(State()), State()) && selectedCell == None
      ensures !old(isLevelComplete) && old(selectedCell).Some? && old(selectedCell) != Some(Pos(row, col))
              && !AreAdjacent(old(selectedCell).value, Pos(row, col)) ==>
                SelectionOnly(old(State()), State()) && selectedCell == Some(Pos(row, col))
      ensures !old(isLevelComplete) && old(selectedCell).Some? && AreAdjacent(old(selectedCell).value, Pos(row, col)) ==>
                && selectedCell == None
                && SwapStep(old(State()), State().(selectedCell := old(selectedCell)), old(selectedCell).value, Pos(row, col), refills, fuel)
    {
      if isLevelComplete {
        return;
      }
      var clicked := Pos(row, col);
      if selectedCell.None? {
        selectedCell := Some(clicked);
        return;
      }
      var selected := selectedCell.value;
      if selected == clicked {
        selectedCell := None;
        return;
      }
      if AreAdjacent(selected, clicked) {
        AttemptSwap(selected, clicked, refills, fuel);
        selectedCell := None;
      } else {
        selectedCell := Some(clicked);
      }
    }

    /** The later timers of attemptSwap: the pop-in cells are cleared, and then the cascade count shown. */
    method FinishAnimations()
      requires Valid()
      modifies this
      ensures Valid()
      ensures State() == old(State()).(newCells := [], lastCascadeCount := 0)
    {
      newCells := [];
      lastCascadeCount := 0;
    }

    /** nextLevel: the level after the current one, loaded afresh; nothing happens before a level is loaded. */
    method NextLevel(sizeDraw: nat, colorDraw: nat, shuffleDraws: Draws, gridDraws: nat -> Draws) returns (loaded: bool)
      requires Valid()
      modifies this
      ensures Valid()
      ensures old(level).None? ==> !loaded
      ensures loaded ==> Loaded(old(State()), State(), old(level).value.levelNumber + 1, sizeDraw, colorDraw, shuffleDraws)
      ensures !loaded ==> State() == old(State())
    {
      if level.None? {
        return false;
      }
      loaded := LoadLevel(level.value.levelNumber + 1, sizeDraw, colorDraw, shuffleDraws, gridDraws);
    }

    /** restartLevel: the current level number, loaded afresh (a new grid and goal from the draws, progress reset). */
    method RestartLevel(sizeDraw: nat, colorDraw: nat, shuffleDraws: Draws, gridDraws: nat -> Draws) returns (loaded: bool)
      requires Valid()
      modifies this
      ensures Valid()
      ensures old(level).None? ==> !loaded
      ensures loaded ==> Loaded(old(State()), State(), old(level).value.levelNumber, sizeDraw, colorDraw, shuffleDraws)
      ensures !loaded ==> State() == old(State())
    {
      if level.None? {
        return false;
      }
      loaded := LoadLevel(level.value.levelNumber, sizeDraw, colorDraw, shuffleDraws, gridDraws);
    }
  }
}

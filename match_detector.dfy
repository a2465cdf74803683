/**
 * The match detector (src/utils/matchDetector.js): finding the cells that lie in a run of
 * three or more equal crystals, clearing them, tallying their colours, and the heuristic
 * group count.
 *
 * Matches are a set of positions; the source's "row,col" strings only serve to deduplicate.
 */
module MatchDetector {
  import opened Colors
  import opened GridHelpers

  /** Cell i of a line is a crystal whose maximal run of equal cells is at least three long. */
  predicate InRun(line: seq<Cell>, i: int)
    requires 0 <= i < |line|
  {
    line[i] != Empty && 1 + RunBefore(line, i, line[i]) + RunAfter(line, i, line[i]) >= 3
  }

  /** (r, c) lies in a horizontal or a vertical run of at least three equal crystals. */
  predicate Matched(g: Grid, r: int, c: int)
    requires IsSquare(g) && 0 <= r < |g| && 0 <= c < |g|
  {
    InRun(g[r], c) || InRun(Column(g, c), r)
  }

  /** All matched positions of a grid. */
  function MatchSet(g: Grid): (m: set<Pos>)
    requires IsSquare(g)
    ensures forall p :: p in m <==> InGrid(g, p) && Matched(g, p.row, p.col)
  {
    set r, c | 0 <= r < |g| && 0 <= c < |g| && Matched(g, r, c) :: Pos(r, c)
  }

  /** A uniform stretch [lo, hi) of a line, closed on both sides, is one maximal run:
      each of its cells is in a match exactly when the stretch is crystals and at least three long. */
  lemma ClosedRun(line: seq<Cell>, lo: int, hi: int)
    requires 0 <= lo < hi <= |line|
    requires forall j :: lo <= j < hi ==> line[j] == line[lo]
    requires lo == 0 || line[lo - 1] != line[lo]
    requires hi == |line| || line[hi] != line[lo]
    ensures forall i :: lo <= i < hi ==> (InRun(line, i) <==> line[lo] != Empty && hi - lo >= 3)
  {
    forall i | lo <= i < hi
      ensures InRun(line, i) <==> line[lo] != Empty && hi - lo >= 3
    {
      RunBeforeIs(line, i, line[lo], i - lo);
      RunAfterIs(line, i, line[lo], hi - i - 1);
    }
  }

  /** One row (or column) of findMatches: matchStart marks the start of the current run of equal cells;
      when the cell changes or the line ends, a run of three or more crystals is marked. */
  method ScanLine(line: seq<Cell>) returns (marked: set<int>)
    ensures forall i :: i in marked <==> 0 <= i < |line| && InRun(line, i)
  {
    marked := {};
    var size := |line|;
    var matchStart := 0;
    for col := 1 to size + 1
      invariant 0 <= matchStart < col && matchStart <= size
      invariant col == size + 1 ==> matchStart == size
      invariant forall j :: matchStart <= j < col && j < size ==> line[j] == line[matchStart]
      invariant 0 < matchStart < size ==> line[matchStart - 1] != line[matchStart]
      invariant forall i :: i in marked <==> 0 <= i < matchStart && InRun(line, i)
    {
      var currentColor := if col < size then line[col] else Empty;
      var prevColor := line[col - 1];
      if currentColor != prevColor || col == size {
        var matchLength := col - matchStart;
        ClosedRun(line, matchStart, col);
        if matchLength >= 3 && prevColor != Empty {
          for i := matchStart to col
            invariant forall k :: k in marked <==> (0 <= k < matchStart && InRun(line, k)) || matchStart <= k < i
          {
            marked := marked + {i};
          }
        }
        matchStart := col;
      }
    }
  }

  /** The positions found by the horizontal scan of the first `rows` rows. */
  predicate FoundInRows(g: Grid, p: Pos, rows: int)
    requires IsSquare(g)
  {
    InGrid(g, p) && p.row < rows && InRun(g[p.row], p.col)
  }

  /** The positions found by the vertical scan of the first `cols` columns. */
  predicate FoundInColumns(g: Grid, p: Pos, cols: int)
    requires IsSquare(g)
  {
    InGrid(g, p) && p.col < cols && InRun(Column(g, p.col), p.row)
  }

  /** findMatches: every row, then every column, scanned for runs; a position found twice is kept once. */
  method FindMatches(g: Grid) returns (matches: set<Pos>)
    requires IsSquare(g)
    ensures matches == MatchSet(g)
    ensures forall p :: p in matches ==> InGrid(g, p) && g[p.row][p.col] != Empty
  {
    matches := {};
    var size := |g|;
    for row := 0 to size
      invariant forall p :: p in matches <==> FoundInRows(g, p, row)
    {
      var marked := ScanLine(g[row]);
      matches := matches + set i | i in marked :: Pos(row, i);
    }
    for col := 0 to size
      invariant forall p :: p in matches <==> FoundInRows(g, p, size) || FoundInColumns(g, p, col)
    {
      var marked := ScanLine(Column(g, col));
      matches := matches + set i | i in marked :: Pos(i, col);
    }
  }

  /** Three equal crystals side by side somewhere in a line. */
  predicate HasTriple(line: seq<Cell>)
  {
    exists i :: 0 <= i && i + 2 < |line| && line[i] != Empty && line[i] == line[i + 1] && line[i + 1] == line[i + 2]
  }

  /** No row and no column holds three equal crystals side by side. */
  predicate NoTriples(g: Grid)
    requires IsSquare(g)
  {
    (forall r :: 0 <= r < |g| ==> !HasTriple(g[r])) && (forall c :: 0 <= c < |g| ==> !HasTriple(Column(g, c)))
  }

  /** A cell in a run of three or more has three equal crystals side by side around it. */
  lemma RunGivesTriple(line: seq<Cell>, i: int)
    requires 0 <= i < |line| && InRun(line, i)
    ensures HasTriple(line)
  {
    var start := RunTriple(line, i);
  }

  /** Every cell of three equal crystals side by side is in a match. */
  lemma TripleCellsInRun(line: seq<Cell>, i: int)
    requires 0 <= i && i + 2 < |line| && line[i] != Empty && line[i] == line[i + 1] && line[i + 1] == line[i + 2]
    ensures InRun(line, i) && InRun(line, i + 1) && InRun(line, i + 2)
  {
    assert RunAfter(line, i, line[i]) >= 2;
    assert RunBefore(line, i + 1, line[i]) >= 1 && RunAfter(line, i + 1, line[i]) >= 1;
    assert RunBefore(line, i + 2, line[i]) >= 2;
  }

  /** A line has a cell in a run of three or more exactly when it has three equal crystals side by side. */
  lemma RunIffTriple(line: seq<Cell>)
    ensures (exists i :: 0 <= i < |line| && InRun(line, i)) <==> HasTriple(line)
  {
    if i :| 0 <= i < |line| && InRun(line, i) {
      RunGivesTriple(line, i);
    }
    if HasTriple(line) {
      var i :| 0 <= i && i + 2 < |line| && line[i] != Empty && line[i] == line[i + 1] && line[i + 1] == line[i + 2];
      TripleCellsInRun(line, i);
    }
  }

  /** findMatches is empty exactly when no row and no column holds three equal crystals side by side. */
  lemma NoMatchesIffNoTriples(g: Grid)
    requires IsSquare(g)
    ensures MatchSet(g) == {} <==> NoTriples(g)
  {
    if MatchSet(g) == {} {
      forall r | 0 <= r < |g|
        ensures !HasTriple(g[r])
      {
        forall c | 0 <= c < |g|
          ensures !InRun(g[r], c)
        {
          assert Pos(r, c) !in MatchSet(g);
        }
        RunIffTriple(g[r]);
      }
      forall c | 0 <= c < |g|
        ensures !HasTriple(Column(g, c))
      {
        forall r | 0 <= r < |g|
          ensures !InRun(Column(g, c), r)
        {
          assert Pos(r, c) !in MatchSet(g);
        }
        RunIffTriple(Column(g, c));
      }
    }
    if MatchSet(g) != {} {
      var p :| p in MatchSet(g);
      RunIffTriple(g[p.row]);
      RunIffTriple(Column(g, p.col));
    }
  }

  /** The grid with the given positions emptied. */
  function Removed(g: Grid, m: set<Pos>): (h: Grid)
    requires IsSquare(g)
    ensures IsSquare(h) && |h| == |g|
  {
    seq(|g|, r requires 0 <= r < |g| => seq(|g|, c requires 0 <= c < |g| => if Pos(r, c) in m then Empty else g[r][c]))
  }

  /** removeMatches: a copy of the grid in which each listed position is set to empty, one after another. */
  method RemoveMatches(g: Grid, matches: set<Pos>) returns (newGrid: Grid)
    requires IsSquare(g)
    requires forall p :: p in matches ==> InGrid(g, p)
    ensures IsSquare(newGrid) && |newGrid| == |g|
    ensures forall r, c :: 0 <= r < |g| && 0 <= c < |g| ==>
              newGrid[r][c] == if Pos(r, c) in matches then Empty else g[r][c]
    ensures newGrid == Removed(g, matches)
  {
    newGrid := CloneGrid(g);
    var rest := matches;
    while rest != {}
      invariant rest <= matches
      invariant IsSquare(newGrid) && |newGrid| == |g|
      invariant forall r, c :: 0 <= r < |g| && 0 <= c < |g| ==>
                  newGrid[r][c] == if Pos(r, c) in matches - rest then Empty else g[r][c]
      decreases |rest|
    {
      var p :| p in rest;
      newGrid := newGrid[p.row := newGrid[p.row][p.col := Empty]];
      rest := rest - {p};
    }
    GridExt(newGrid, Removed(g, matches));
  }

  /** The positions of the grid holding cell x. */
  function CellsOf(g: Grid, x: Cell): set<Pos>
    requires IsSquare(g)
  {
    set r, c | 0 <= r < |g| && 0 <= c < |g| && g[r][c] == x :: Pos(r, c)
  }

  /** The listed positions that hold a crystal of colour c. */
  function MatchedOf(g: Grid, m: set<Pos>, c: Color): set<Pos>
    requires IsSquare(g)
  {
    set p | p in m && InGrid(g, p) && g[p.row][p.col] == Crystal(c)
  }

  /** The listed positions that hold a crystal of any colour. */
  function FilledIn(g: Grid, m: set<Pos>): set<Pos>
    requires IsSquare(g)
  {
    set p | p in m && InGrid(g, p) && g[p.row][p.col] != Empty
  }

  /** Emptying the listed positions removes exactly the listed crystals of each colour:
      what getMatchedColors tallies is what removeMatches takes off the board. */
  lemma RemovalConservesColours(g: Grid, m: set<Pos>, c: Color)
    requires IsSquare(g)
    requires forall p :: p in m ==> InGrid(g, p)
    ensures |CellsOf(g, Crystal(c))| == |CellsOf(Removed(g, m), Crystal(c))| + |MatchedOf(g, m, c)|
  {
    var h := Removed(g, m);
    var before, after, taken := CellsOf(g, Crystal(c)), CellsOf(h, Crystal(c)), MatchedOf(g, m, c);
    assert before == after + taken;
    assert after * taken == {};
  }

  /** A line whose cells are either emptied or kept from an original line: three equal crystals side by side
      in it were three equal crystals side by side in the original, and so a kept cell in a run there. */
  lemma ClearedLineTriple(orig: seq<Cell>, now: seq<Cell>)
    requires |now| == |orig|
    requires forall j :: 0 <= j < |now| ==> now[j] == Empty || now[j] == orig[j]
    ensures HasTriple(now) ==> exists i :: 0 <= i < |orig| && InRun(orig, i) && now[i] != Empty
  {
    forall i | 0 <= i && i + 2 < |now| && now[i] != Empty && now[i] == now[i + 1] && now[i + 1] == now[i + 2]
      ensures InRun(orig, i) && now[i] != Empty
    {
      assert orig[i] == now[i] && orig[i + 1] == now[i + 1] && orig[i + 2] == now[i + 2];
      TripleCellsInRun(orig, i);
    }
  }

  /** After removeMatches of findMatches, no match is left: a crystal that survived was in no run. */
  lemma RemovingMatchesLeavesNone(g: Grid)
    requires IsSquare(g)
    ensures MatchSet(Removed(g, MatchSet(g))) == {}
  {
    var m := MatchSet(g);
    var h := Removed(g, m);
    forall r | 0 <= r < |g|
      ensures !HasTriple(h[r])
    {
      ClearedLineTriple(g[r], h[r]);
    }
    forall c | 0 <= c < |g|
      ensures !HasTriple(Column(h, c))
    {
      ClearedLineTriple(Column(g, c), Column(h, c));
    }
    NoMatchesIffNoTriples(h);
  }

  /** Adding one listed position to those tallied adds one to the tally of its own colour only. */
  lemma TallyStep(g: Grid, done: set<Pos>, p: Pos, c: Color)
    requires IsSquare(g) && InGrid(g, p) && p !in done
    ensures |MatchedOf(g, done + {p}, c)| == |MatchedOf(g, done, c)| + (if g[p.row][p.col] == Crystal(c) then 1 else 0)
  {
    if g[p.row][p.col] == Crystal(c) {
      assert MatchedOf(g, done + {p}, c) == MatchedOf(g, done, c) + {p};
    } else {
      assert MatchedOf(g, done + {p}, c) == MatchedOf(g, done, c);
    }
  }

  /** Adding one listed position adds one to the listed crystals when it holds one. */
  lemma FilledStep(g: Grid, done: set<Pos>, p: Pos)
    requires IsSquare(g) && InGrid(g, p) && p !in done
    ensures |FilledIn(g, done + {p})| == |FilledIn(g, done)| + (if g[p.row][p.col] != Empty then 1 else 0)
  {
    if g[p.row][p.col] != Empty {
      assert FilledIn(g, done + {p}) == FilledIn(g, done) + {p};
    } else {
      assert FilledIn(g, done + {p}) == FilledIn(g, done);
    }
  }

  /** The colour tally of the listed positions: a key for each colour they hold, mapped to its count. */
  function ColourTally(g: Grid, m: set<Pos>): (tally: map<Color, nat>)
    requires IsSquare(g)
    ensures forall c :: c in tally <==> |MatchedOf(g, m, c)| > 0
    ensures forall c :: Get(tally, c) == |MatchedOf(g, m, c)|
  {
    EveryColorNamed();
    map c | c in ColorNames() && |MatchedOf(g, m, c)| > 0 :: |MatchedOf(g, m, c)|
  }

  /** colorCounts is the tally of the positions in done: a key for each colour present, with its count. */
  predicate TalliesOf(g: Grid, done: set<Pos>, colorCounts: map<Color, nat>)
    requires IsSquare(g)
  {
    && (forall c :: c in colorCounts <==> Get(colorCounts, c) > 0)
    && (forall c :: Get(colorCounts, c) == |MatchedOf(g, done, c)|)
    && Total(colorCounts) == |FilledIn(g, done)|
  }

  /** A tally of m is the colour tally of m. */
  lemma TalliesAreColourTally(g: Grid, m: set<Pos>, colorCounts: map<Color, nat>)
    requires IsSquare(g) && TalliesOf(g, m, colorCounts)
    ensures colorCounts == ColourTally(g, m)
  {
    var t := ColourTally(g, m);
    assert forall c :: c in colorCounts <==> c in t;
    forall c | c in colorCounts
      ensures colorCounts[c] == t[c]
    {
      assert Get(colorCounts, c) == Get(t, c);
    }
  }

  /** One more position tallied, as the body of getMatchedColors' loop does it. */
  lemma TallyOneMore(g: Grid, done: set<Pos>, p: Pos, before: map<Color, nat>, after: map<Color, nat>)
    requires IsSquare(g) && InGrid(g, p) && p !in done && TalliesOf(g, done, before)
    requires var cell := g[p.row][p.col];
      after == if cell == Empty then before else before[cell.color := Get(before, cell.color) + 1]
    ensures TalliesOf(g, done + {p}, after)
  {
    forall c {
      TallyStep(g, done, p, c);
    }
    FilledStep(g, done, p);
    var cell := g[p.row][p.col];
    if cell != Empty {
      CountOneMore(before, cell.color);
    }
  }

  /** The colour tally of any set of grid positions tallies it: its counts add up to the listed crystals. */
  lemma {:induction false} ColourTallyTallies(g: Grid, m: set<Pos>)
    requires IsSquare(g) && forall p :: p in m ==> InGrid(g, p)
    ensures TalliesOf(g, m, ColourTally(g, m))
    ensures Total(ColourTally(g, m)) == |FilledIn(g, m)|
    decreases |m|
  {
    if m != {} {
      var p :| p in m;
      ColourTallyTallies(g, m - {p});
      ColourTallyStep(g, m, p);
    } else {
      assert forall c :: MatchedOf(g, m, c) == {};
      assert FilledIn(g, m) == {};
    }
  }

  /** The step of ColourTallyTallies: one more position on top of a set whose colour tally tallies it. */
  lemma ColourTallyStep(g: Grid, m: set<Pos>, p: Pos)
    requires IsSquare(g) && forall q :: q in m ==> InGrid(g, q)
    requires p in m
    requires TalliesOf(g, m - {p}, ColourTally(g, m - {p}))
    requires Total(ColourTally(g, m - {p})) == |FilledIn(g, m - {p})|
    ensures TalliesOf(g, m, ColourTally(g, m))
    ensures Total(ColourTally(g, m)) == |FilledIn(g, m)|
  {
    var rest := m - {p};
    var before := ColourTally(g, rest);
    var cell := g[p.row][p.col];
    var after := if cell == Empty then before else before[cell.color := Get(before, cell.color) + 1];
    TallyOneMore(g, rest, p, before, after);
    assert rest + {p} == m;
    TalliesAreColourTally(g, m, after);
  }

  /** A grid with a match holds at least three matched crystals: a run is three long. */
  lemma MatchesHaveThree(g: Grid)
    requires IsSquare(g) && MatchSet(g) != {}
    ensures |FilledIn(g, MatchSet(g))| >= 3
  {
    var p :| p in MatchSet(g);
    if InRun(g[p.row], p.col) {
      var i := RunTriple(g[p.row], p.col);
      ThreeFilled(g, Pos(p.row, i), Pos(p.row, i + 1), Pos(p.row, i + 2));
    } else {
      var i := RunTriple(Column(g, p.col), p.row);
      ThreeFilled(g, Pos(i, p.col), Pos(i + 1, p.col), Pos(i + 2, p.col));
    }
  }

  /** A cell in a run of three or more: three neighbouring cells of the line lie in that run. */
  lemma RunTriple(line: seq<Cell>, j: int) returns (i: int)
    requires 0 <= j < |line| && InRun(line, j)
    ensures 0 <= i && i + 2 < |line| && InRun(line, i) && InRun(line, i + 1) && InRun(line, i + 2)
    ensures i <= j <= i + 2 && line[i] == line[j] && line[i + 1] == line[j] && line[i + 2] == line[j]
  {
    var x := line[j];
    var before, after := RunBefore(line, j, x), RunAfter(line, j, x);
    i := if before >= 2 then j - 2 else if after >= 2 then j else j - 1;
    assert line[i] == x && line[i + 1] == x && line[i + 2] == x;
    TripleCellsInRun(line, i);
  }

  /** Three different matched crystals make at least three. */
  lemma ThreeFilled(g: Grid, a: Pos, b: Pos, c: Pos)
    requires IsSquare(g) && InGrid(g, a) && InGrid(g, b) && InGrid(g, c) && a != b && b != c && a != c
    requires Matched(g, a.row, a.col) && Matched(g, b.row, b.col) && Matched(g, c.row, c.col)
    ensures |FilledIn(g, MatchSet(g))| >= 3
  {
    var three := {a, b, c};
    assert |three| == 3;
    SubsetSize(three, FilledIn(g, MatchSet(g)));
  }

  /** A subset is no larger than the set. */
  lemma SubsetSize(a: set<Pos>, b: set<Pos>)
    requires a <= b
    ensures |a| <= |b|
  {
    assert b == a + (b - a);
  }

  /** getMatchedColors: one key per colour among the listed cells, mapped to how many listed cells hold it;
      empty cells are skipped, so the counts add up to the listed crystals. */
  method GetMatchedColors(g: Grid, matches: set<Pos>) returns (colorCounts: map<Color, nat>)
    requires IsSquare(g)
    requires forall p :: p in matches ==> InGrid(g, p)
    ensures colorCounts == ColourTally(g, matches)
    ensures Total(colorCounts) == |FilledIn(g, matches)|
  {
    colorCounts := map[];
    var rest := matches;
    ghost var done: set<Pos> := {};
    while rest != {}
      invariant rest <= matches && done == matches - rest
      invariant TalliesOf(g, done, colorCounts)
      decreases |rest|
    {
      var p :| p in rest;
      var color := g[p.row][p.col];
      ghost var before := colorCounts;
      if color != Empty {
        colorCounts := colorCounts[color.color := Get(colorCounts, color.color) + 1];
      }
      TallyOneMore(g, done, p, before, colorCounts);
      rest := rest - {p};
      done := done + {p};
    }
    assert done == matches;
    TalliesAreColourTally(g, matches, colorCounts);
  }

  /* countMatches works on the matched flags of each row and each column. */

  /** The matched flags of row r. */
  function MatchedRow(m: set<Pos>, n: nat, r: int): (bits: seq<bool>)
    ensures |bits| == n && forall c :: 0 <= c < n ==> bits[c] == (Pos(r, c) in m)
  {
    seq(n, c => Pos(r, c) in m)
  }

  /** The matched flags of column c. */
  function MatchedColumn(m: set<Pos>, n: nat, c: int): (bits: seq<bool>)
    ensures |bits| == n && forall r :: 0 <= r < n ==> bits[r] == (Pos(r, c) in m)
  {
    seq(n, r => Pos(r, c) in m)
  }

  /** The number of consecutive set flags from index i on: all set, and the next one (if any) not. */
  function Streak(bits: seq<bool>, i: int): (k: nat)
    requires 0 <= i <= |bits|
    ensures i + k <= |bits|
    ensures forall j :: i <= j < i + k ==> bits[j]
    ensures i + k == |bits| || !bits[i + k]
    decreases |bits| - i
  {
    if i < |bits| && bits[i] then 1 + Streak(bits, i + 1) else 0
  }

  /** The ensures clauses of Streak determine it. */
  lemma StreakIs(bits: seq<bool>, i: int, k: nat)
    requires 0 <= i && i + k <= |bits|
    requires forall j :: i <= j < i + k ==> bits[j]
    requires i + k == |bits| || !bits[i + k]
    ensures Streak(bits, i) == k
  {
  }

  /** A group, a maximal stretch of at least three set flags, starts at index i. */
  predicate GroupAt(bits: seq<bool>, i: int)
    requires 0 <= i < |bits|
  {
    bits[i] && (i == 0 || !bits[i - 1]) && Streak(bits, i) >= 3
  }

  /** Three set flags side by side somewhere. */
  predicate FlagTriple(bits: seq<bool>)
  {
    exists i :: 0 <= i && i + 2 < |bits| && bits[i] && bits[i + 1] && bits[i + 2]
  }

  /** Some row in [from, to) has three matched cells side by side. */
  predicate RowsHaveTriple(m: set<Pos>, n: nat, from: int, to: int)
  {
    exists r :: from <= r < to && FlagTriple(MatchedRow(m, n, r))
  }

  /** The groups of a line that start below index k and are counted: every group of a row;
      a group of a column only when no row it spans has three matched cells side by side. */
  function GroupsBelow(m: set<Pos>, n: nat, bits: seq<bool>, k: int, vertical: bool): nat
    requires 0 <= k <= |bits|
  {
    if k == 0 then 0
    else
      var counted := GroupAt(bits, k - 1) && !(vertical && RowsHaveTriple(m, n, k - 1, k - 1 + Streak(bits, k - 1)));
      GroupsBelow(m, n, bits, k - 1, vertical) + (if counted then 1 else 0)
  }

  /** The counted groups of the first k rows. */
  function RowGroups(m: set<Pos>, n: nat, k: int): nat
    requires 0 <= k <= n
  {
    if k == 0 then 0 else RowGroups(m, n, k - 1) + GroupsBelow(m, n, MatchedRow(m, n, k - 1), n, false)
  }

  /** The counted groups of the first k columns. */
  function ColumnGroups(m: set<Pos>, n: nat, k: int): nat
    requires 0 <= k <= n
  {
    if k == 0 then 0 else ColumnGroups(m, n, k - 1) + GroupsBelow(m, n, MatchedColumn(m, n, k - 1), n, true)
  }

  /** What countMatches computes for a set of matched positions on an n-by-n board. */
  function GroupCount(m: set<Pos>, n: nat): nat
  {
    RowGroups(m, n, n) + ColumnGroups(m, n, n)
  }

  /** Inside a stretch of set flags no group starts after its first index. */
  lemma {:induction false} NoGroupInside(m: set<Pos>, n: nat, bits: seq<bool>, s: int, k: int, vertical: bool)
    requires 0 <= s < k <= |bits|
    requires forall j :: s <= j < k - 1 ==> bits[j]
    ensures GroupsBelow(m, n, bits, k, vertical) == GroupsBelow(m, n, bits, s + 1, vertical)
    decreases k
  {
    if k > s + 1 {
      NoGroupInside(m, n, bits, s, k - 1, vertical);
    }
  }

  /** A maximal stretch [s, e) of set flags adds one counted group exactly when it is at least three long
      and, for a column, no row it spans has a triple. */
  lemma ClosedStretch(m: set<Pos>, n: nat, bits: seq<bool>, s: int, e: int, vertical: bool)
    requires 0 <= s < e <= |bits|
    requires forall j :: s <= j < e ==> bits[j]
    requires s == 0 || !bits[s - 1]
    requires e == |bits| || !bits[e]
    ensures GroupsBelow(m, n, bits, e, vertical) ==
            GroupsBelow(m, n, bits, s, vertical) + (if e - s >= 3 && !(vertical && RowsHaveTriple(m, n, s, e)) then 1 else 0)
  {
    NoGroupInside(m, n, bits, s, e, vertical);
    StreakIs(bits, s, e - s);
  }

  /** The state of countMatches' scan of one line before index col: inMatch and matchLength
      describe the stretch of set flags that ends just before col. */
  predicate ScanState(bits: seq<bool>, col: int, inMatch: bool, matchLength: int)
  {
    && 0 <= matchLength <= col <= |bits|
    && (inMatch <==> matchLength > 0)
    && (forall j :: col - matchLength <= j < col ==> bits[j])
    && (col - matchLength == 0 || !bits[col - matchLength - 1])
  }

  /** One step of the scan at index col: a set flag extends the stretch; a clear flag closes it,
      counting it when it forms a counted group. */
  lemma ScanStep(m: set<Pos>, n: nat, bits: seq<bool>, col: int, inMatch: bool, matchLength: int, vertical: bool)
    requires ScanState(bits, col, inMatch, matchLength) && col < |bits|
    ensures bits[col] ==> ScanState(bits, col + 1, true, matchLength + 1)
    ensures !bits[col] ==> ScanState(bits, col + 1, false, 0)
    ensures !bits[col] ==>
      GroupsBelow(m, n, bits, col + 1, vertical) == GroupsBelow(m, n, bits, col - matchLength, vertical) +
        (if inMatch && matchLength >= 3 && !(vertical && RowsHaveTriple(m, n, col - matchLength, col)) then 1 else 0)
  {
    if !bits[col] && inMatch {
      ClosedStretch(m, n, bits, col - matchLength, col, vertical);
    }
  }

  /** The end of the scan of a line closes the stretch still open. */
  lemma ScanEnd(m: set<Pos>, n: nat, bits: seq<bool>, inMatch: bool, matchLength: int, vertical: bool)
    requires ScanState(bits, |bits|, inMatch, matchLength)
    ensures GroupsBelow(m, n, bits, |bits|, vertical) == GroupsBelow(m, n, bits, |bits| - matchLength, vertical) +
      (if inMatch && matchLength >= 3 && !(vertical && RowsHaveTriple(m, n, |bits| - matchLength, |bits|)) then 1 else 0)
  {
    if inMatch {
      ClosedStretch(m, n, bits, |bits| - matchLength, |bits|, vertical);
    }
  }

  /** The check in countMatches whether some row from `from` up to `to` has three matched cells side by side;
      the scan of a row stops at the third, and the scan of rows stops at the first such row. */
  method SpanHasHorizontalRun(matches: set<Pos>, size: nat, from: int, to: int) returns (hasHorizontalMatch: bool)
    requires from <= to
    ensures hasHorizontalMatch <==> RowsHaveTriple(matches, size, from, to)
  {
    hasHorizontalMatch := false;
    var r := from;
    while r < to
      invariant from <= r <= to
      invariant !RowsHaveTriple(matches, size, from, r)
    {
      ghost var bits := MatchedRow(matches, size, r);
      var horizontalCount := 0;
      var c := 0;
      while c < size
        invariant 0 <= c <= size && 0 <= horizontalCount < 3 && horizontalCount <= c
        invariant forall j :: c - horizontalCount <= j < c ==> bits[j]
        invariant c - horizontalCount == 0 || !bits[c - horizontalCount - 1]
        invariant forall i :: 0 <= i && i + 2 < c ==> !(bits[i] && bits[i + 1] && bits[i + 2])
      {
        if Pos(r, c) in matches {
          horizontalCount := horizontalCount + 1;
        } else {
          horizontalCount := 0;
        }
        if horizontalCount >= 3 {
          hasHorizontalMatch := true;
          assert bits[c - 2] && bits[c - 1] && bits[c];
          break;
        }
        c := c + 1;
      }
      if hasHorizontalMatch {
        assert FlagTriple(bits);
        break;
      }
      assert !FlagTriple(bits);
      r := r + 1;
    }
  }

  /** countMatches: the horizontal groups of every row, then the vertical groups of every column that
      no row of their span crosses with three matched cells side by side. */
  method CountMatches(g: Grid) returns (matchCount: nat)
    requires IsSquare(g)
    ensures matchCount == GroupCount(MatchSet(g), |g|)
    ensures MatchSet(g) == {} ==> matchCount == 0
  {
    var matches := FindMatches(g);
    matchCount := CountGroups(matches, |g|);
    NoGroupsWithoutMatches(|g|);
  }

  /** The counting part of countMatches, over the matched positions of a size-by-size board:
      the horizontal pass over every row, then the vertical pass over every column. */
  method CountGroups(matches: set<Pos>, size: nat) returns (matchCount: nat)
    ensures matchCount == GroupCount(matches, size)
  {
    matchCount := 0;
    for row := 0 to size
      invariant matchCount == RowGroups(matches, size, row)
    {
      var found := CountRowGroups(matches, size, row);
      matchCount := matchCount + found;
    }
    for col := 0 to size
      invariant matchCount == RowGroups(matches, size, size) + ColumnGroups(matches, size, col)
    {
      var found := CountColumnGroups(matches, size, col);
      matchCount := matchCount + found;
    }
  }

  /** One row of the horizontal pass: each maximal stretch of three or more matched cells. */
  method CountRowGroups(matches: set<Pos>, size: nat, row: int) returns (matchCount: nat)
    ensures matchCount == GroupsBelow(matches, size, MatchedRow(matches, size, row), size, false)
  {
    ghost var bits := MatchedRow(matches, size, row);
    matchCount := 0;
    var inMatch := false;
    var matchLength := 0;
    for col := 0 to size
      invariant ScanState(bits, col, inMatch, matchLength)
      invariant matchCount == GroupsBelow(matches, size, bits, col - matchLength, false)
    {
      ScanStep(matches, size, bits, col, inMatch, matchLength, false);
      var isMatched := Pos(row, col) in matches;
      if isMatched {
        if !inMatch {
          inMatch := true;
          matchLength := 1;
        } else {
          matchLength := matchLength + 1;
        }
      } else {
        if inMatch && matchLength >= 3 {
          matchCount := matchCount + 1;
        }
        inMatch := false;
        matchLength := 0;
      }
    }
    ScanEnd(matches, size, bits, inMatch, matchLength, false);
    if inMatch && matchLength >= 3 {
      matchCount := matchCount + 1;
    }
  }

  /** One column of the vertical pass: each maximal stretch of three or more matched cells,
      unless a row it spans has three matched cells side by side. */
  method CountColumnGroups(matches: set<Pos>, size: nat, col: int) returns (matchCount: nat)
    ensures matchCount == GroupsBelow(matches, size, MatchedColumn(matches, size, col), size, true)
  {
    ghost var bits := MatchedColumn(matches, size, col);
    matchCount := 0;
    var inMatch := false;
    var matchLength := 0;
    for row := 0 to size
      invariant ScanState(bits, row, inMatch, matchLength)
      invariant matchCount == GroupsBelow(matches, size, bits, row - matchLength, true)
    {
      ScanStep(matches, size, bits, row, inMatch, matchLength, true);
      var isMatched := Pos(row, col) in matches;
      if isMatched {
        if !inMatch {
          inMatch := true;
          matchLength := 1;
        } else {
          matchLength := matchLength + 1;
        }
      } else {
        if inMatch && matchLength >= 3 {
          var hasHorizontalMatch := SpanHasHorizontalRun(matches, size, row - matchLength, row);
          if !hasHorizontalMatch {
            matchCount := matchCount + 1;
          }
        }
        inMatch := false;
        matchLength := 0;
      }
    }
    ScanEnd(matches, size, bits, inMatch, matchLength, true);
    if inMatch && matchLength >= 3 {
      var hasHorizontalMatch := SpanHasHorizontalRun(matches, size, size - matchLength, size);
      if !hasHorizontalMatch {
        matchCount := matchCount + 1;
      }
    }
  }

  /** A line with no set flag has no group. */
  lemma {:induction false} NoGroupsInClearLine(m: set<Pos>, n: nat, bits: seq<bool>, k: int, vertical: bool)
    requires 0 <= k <= |bits|
    requires forall j :: 0 <= j < |bits| ==> !bits[j]
    ensures GroupsBelow(m, n, bits, k, vertical) == 0
  {
    if k > 0 {
      NoGroupsInClearLine(m, n, bits, k - 1, vertical);
    }
  }

  /** With nothing matched, countMatches counts no group. */
  lemma NoGroupsWithoutMatches(n: nat)
    ensures GroupCount({}, n) == 0
  {
    NoRowGroups(n, n);
    NoColumnGroups(n, n);
  }

  lemma {:induction false} NoRowGroups(n: nat, k: int)
    requires 0 <= k <= n
    ensures RowGroups({}, n, k) == 0
  {
    if k > 0 {
      NoRowGroups(n, k - 1);
      NoGroupsInClearLine({}, n, MatchedRow({}, n, k - 1), n, false);
    }
  }

  lemma {:induction false} NoColumnGroups(n: nat, k: int)
    requires 0 <= k <= n
    ensures ColumnGroups({}, n, k) == 0
  {
    if k > 0 {
      NoColumnGroups(n, k - 1);
      NoGroupsInClearLine({}, n, MatchedColumn({}, n, k - 1), n, true);
    }
  }

  /** Matched cells of a 5-by-5 board: a vertical run down column 0 (rows 0 to 2) and, apart from it,
      a horizontal run along row 1 (columns 2 to 4). */
  function TwoSeparateRuns(): set<Pos>
  {
    {Pos(0, 0), Pos(1, 0), Pos(2, 0), Pos(1, 2), Pos(1, 3), Pos(1, 4)}
  }

  lemma TwoSeparateRunsByRow()
    ensures MatchedRow(TwoSeparateRuns(), 5, 0) == [true, false, false, false, false]
    ensures MatchedRow(TwoSeparateRuns(), 5, 1) == [true, false, true, true, true]
    ensures MatchedRow(TwoSeparateRuns(), 5, 2) == [true, false, false, false, false]
    ensures MatchedRow(TwoSeparateRuns(), 5, 3) == [false, false, false, false, false]
    ensures MatchedRow(TwoSeparateRuns(), 5, 4) == [false, false, false, false, false]
  {
  }

  lemma TwoSeparateRunsByColumn()
    ensures MatchedColumn(TwoSeparateRuns(), 5, 0) == [true, true, true, false, false]
    ensures MatchedColumn(TwoSeparateRuns(), 5, 1) == [false, false, false, false, false]
    ensures MatchedColumn(TwoSeparateRuns(), 5, 2) == [false, true, false, false, false]
    ensures MatchedColumn(TwoSeparateRuns(), 5, 3) == [false, true, false, false, false]
    ensures MatchedColumn(TwoSeparateRuns(), 5, 4) == [false, true, false, false, false]
  {
  }

  /** countMatches counts these two separate runs as one group: the vertical run is dropped because row 1,
      which it spans, has three matched cells side by side elsewhere in the row. */
  lemma VerticalGroupOverSuppressed()
    ensures GroupCount(TwoSeparateRuns(), 5) == 1
  {
    var m := TwoSeparateRuns();
    var clear := [false, false, false, false, false];
    var edge := [true, false, false, false, false];
    var middle := [false, true, false, false, false];
    TwoSeparateRunsByRow();
    TwoSeparateRunsByColumn();
    assert RowsHaveTriple(m, 5, 0, 3) by {
      assert FlagTriple(MatchedRow(m, 5, 1)) by {
        assert MatchedRow(m, 5, 1)[2] && MatchedRow(m, 5, 1)[3] && MatchedRow(m, 5, 1)[4];
      }
    }
    NoGroupsInClearLine(m, 5, clear, 5, false);
    NoGroupsInClearLine(m, 5, clear, 5, true);
    assert Streak(edge, 0) == 1;
    assert Streak(middle, 1) == 1;
    assert Streak([true, false, true, true, true], 2) == 3;
    assert Streak([true, true, true, false, false], 0) == 3;
  }

  /** A 5-by-5 board whose matches are exactly TwoSeparateRuns: red down column 0 from row 0 to row 2, purple
      along row 1 from column 2 to column 4, and no other run of three. */
  function TwoRunsBoard(): (g: Grid)
    ensures IsSquare(g) && |g| == 5
  {
    var R, G, B, Y, P := Crystal(Red), Crystal(Green), Crystal(Blue), Crystal(Yellow), Crystal(Purple);
    [[R, G, B, G, B],
     [R, Y, P, P, P],
     [R, B, G, B, G],
     [G, B, Y, B, Y],
     [B, R, G, R, G]]
  }

  /** A line of five cells with no three equal cells side by side has no cell in a run. */
  lemma NoRunWithoutTriple(line: seq<Cell>)
    requires |line| == 5
    requires forall i :: 0 <= i < 3 ==> line[i] != line[i + 1] || line[i + 1] != line[i + 2]
    ensures forall i :: 0 <= i < 5 ==> !InRun(line, i)
  {
    RunIffTriple(line);
  }

  /** Row 1 of the board: the purple run at columns 2 to 4 is matched, nothing before it. */
  lemma AcrossRun()
    ensures forall i :: 0 <= i < 5 ==> (InRun(TwoRunsBoard()[1], i) <==> 2 <= i)
  {
    var across := TwoRunsBoard()[1];
    TripleCellsInRun(across, 2);
    ClosedRun(across, 0, 1);
    ClosedRun(across, 1, 2);
  }

  /** Column 0 of the board: the red run at rows 0 to 2 is matched, nothing after it. */
  lemma DownRun()
    ensures forall i :: 0 <= i < 5 ==> (InRun(Column(TwoRunsBoard(), 0), i) <==> i < 3)
  {
    var down := Column(TwoRunsBoard(), 0);
    TripleCellsInRun(down, 0);
    ClosedRun(down, 3, 4);
    ClosedRun(down, 4, 5);
  }

  /** Every other row and column of the board has no run. */
  lemma OtherLines(k: int)
    requires 0 <= k < 5
    ensures k != 1 ==> forall i :: 0 <= i < 5 ==> !InRun(TwoRunsBoard()[k], i)
    ensures k != 0 ==> forall i :: 0 <= i < 5 ==> !InRun(Column(TwoRunsBoard(), k), i)
  {
    var g := TwoRunsBoard();
    if k != 1 {
      NoRunWithoutTriple(g[k]);
    }
    if k != 0 {
      NoRunWithoutTriple(Column(g, k));
    }
  }

  /** The matched cells of the board are exactly TwoSeparateRuns. */
  lemma TwoRunsBoardMatches()
    ensures MatchSet(TwoRunsBoard()) == TwoSeparateRuns()
  {
    var g := TwoRunsBoard();
    AcrossRun();
    DownRun();
    forall p
      ensures p in MatchSet(g) <==> p in TwoSeparateRuns()
    {
      if InGrid(g, p) {
        OtherLines(p.row);
        OtherLines(p.col);
      }
    }
  }

  /** What countMatches returns on the board (CountMatches gives GroupCount of the board's MatchSet): one group,
      although the board has two separate runs. */
  lemma TwoRunsBoardCountsOne()
    ensures GroupCount(MatchSet(TwoRunsBoard()), |TwoRunsBoard()|) == 1
  {
    TwoRunsBoardMatches();
    VerticalGroupOverSuppressed();
  }
}

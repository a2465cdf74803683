/**
 * The tier table and the level-to-tier lookup (src/constants/tiers.js).
 * Tier names are display text and are kept only as data.
 */
module Tiers {
  import opened Wrappers

  datatype GoalType = ClearColor | MakeMatches | ClearDual

  /** A table entry that is either one value or a list to pick from at random (gridSize, colorCount). */
  datatype Choice = Fixed(n: nat) | Varies(choices: seq<nat>)

  /** One entry of TIERS. `levels` is the inclusive range [first, last]; ranges are [low, high] pairs. */
  datatype TierConfig = TierConfig(
    name: string,
    levels: (int, int),
    gridSize: Choice,
    colorCount: Choice,
    goalTypes: seq<GoalType>,
    moveLimit: Option<(int, int)>,
    targetRanges: map<GoalType, (int, int)>)

  function Beginner(): TierConfig
  {
    TierConfig("Beginner", (1, 10), Fixed(6), Fixed(4), [ClearColor], None,
               map[ClearColor := (15, 25)])
  }

  function Intermediate(): TierConfig
  {
    TierConfig("Intermediate", (11, 25), Fixed(7), Fixed(5), [ClearColor, MakeMatches], Some((35, 45)),
               map[ClearColor := (30, 40), MakeMatches := (8, 12)])
  }

  function Advanced(): TierConfig
  {
    TierConfig("Advanced", (26, 50), Fixed(8), Fixed(6), [ClearColor, MakeMatches, ClearDual], Some((28, 35)),
               map[ClearColor := (40, 60), MakeMatches := (12, 18), ClearDual := (25, 35)])
  }

  function Expert(): TierConfig
  {
    TierConfig("Expert", (51, 999), Varies([7, 8]), Varies([5, 6]), [ClearColor, MakeMatches, ClearDual], Some((22, 28)),
               map[ClearColor := (50, 70), MakeMatches := (15, 22), ClearDual := (30, 40)])
  }

  /** Object.entries(TIERS): integer keys come out in ascending order. */
  function TierTable(): (table: seq<(nat, TierConfig)>)
    ensures |table| == 4 && forall k :: 0 <= k < 4 ==> table[k].0 == k + 1
  {
    [(1, Beginner()), (2, Intermediate()), (3, Advanced()), (4, Expert())]
  }

  /** TIERS[tier] for the four defined tiers. */
  function ConfigOf(tier: nat): (config: TierConfig)
    requires 1 <= tier <= 4
    ensures config.moveLimit.None? <==> tier == 1
    ensures config.gridSize.Varies? <==> tier == 4
    ensures config.levels.0 == if tier == 1 then 1 else TierTable()[tier - 2].1.levels.1 + 1
  {
    TierTable()[tier - 1].1
  }

  /** The first entry (from index k on) whose level range holds `level`; tier 4 when none does. */
  function FindTier(level: int, k: nat): (found: (nat, TierConfig))
    requires k <= |TierTable()|
    ensures found in TierTable()
    decreases |TierTable()| - k
  {
    if k == |TierTable()| then (4, Expert())
    else
      var (tier, config) := TierTable()[k];
      if config.levels.0 <= level <= config.levels.1 then (tier, config)
      else FindTier(level, k + 1)
  }

  /** getTierForLevel: the tier whose range contains the level, tier 4 for every level outside all ranges. */
  function TierForLevel(level: int): (found: (nat, TierConfig))
    ensures 1 <= found.0 <= 4 && found.1 == ConfigOf(found.0)
    ensures found.0 == 1 <==> 1 <= level <= 10
    ensures found.0 == 2 <==> 11 <= level <= 25
    ensures found.0 == 3 <==> 26 <= level <= 50
    ensures found.0 == 4 <==> level <= 0 || 51 <= level
  {
    FindTier(level, 0)
  }

  /** The level ranges of the table follow each other without gap or overlap, from level 1 to 999. */
  lemma RangesContiguous()
    ensures TierTable()[0].1.levels.0 == 1 && TierTable()[3].1.levels.1 == 999
    ensures forall k :: 0 <= k < 3 ==> TierTable()[k].1.levels.1 + 1 == TierTable()[k + 1].1.levels.0
    ensures forall k :: 0 <= k < 4 ==> TierTable()[k].1.levels.0 < TierTable()[k].1.levels.1
  {
  }

  /** Every level inside a tier's own range maps back to that tier, and every level from 1000 on falls back to tier 4. */
  lemma {:induction false} TierOfOwnRange(tier: nat, level: int)
    requires 1 <= tier <= 4
    requires ConfigOf(tier).levels.0 <= level <= ConfigOf(tier).levels.1 || (tier == 4 && level >= 1000)
    ensures TierForLevel(level).0 == tier
  {
  }

  /** What generateGoal and getProgressInTier rely on: a non-empty range of levels, a target range for each
      listed goal type, and low <= high in every range. */
  predicate WellFormed(config: TierConfig)
  {
    && config.levels.0 < config.levels.1
    && |config.goalTypes| > 0
    && (forall g :: g in config.goalTypes ==> g in config.targetRanges)
    && (forall g :: g in config.targetRanges ==> config.targetRanges[g].0 <= config.targetRanges[g].1)
    && (config.moveLimit.Some? ==> config.moveLimit.value.0 <= config.moveLimit.value.1)
  }

  lemma AllTiersWellFormed(tier: nat)
    requires 1 <= tier <= 4
    ensures WellFormed(ConfigOf(tier))
  {
  }

  /** getProgressInTier: (level - first) / (last - first), as an exact rational. */
  function ProgressInTier(level: int, config: TierConfig): (p: real)
    requires config.levels.0 != config.levels.1
    ensures config.levels.0 < config.levels.1 ==>
              (level == config.levels.0 ==> p == 0.0)
              && (level == config.levels.1 ==> p == 1.0)
              && (config.levels.0 <= level <= config.levels.1 ==> 0.0 <= p <= 1.0)
              && (level < config.levels.0 ==> p < 0.0)
              && (level > config.levels.1 ==> p > 1.0)
  {
    (level - config.levels.0) as real / (config.levels.1 - config.levels.0) as real
  }

  /** The progress grows with the level number. */
  lemma ProgressMonotonic(config: TierConfig, l1: int, l2: int)
    requires config.levels.0 < config.levels.1
    requires l1 <= l2
    ensures ProgressInTier(l1, config) <= ProgressInTier(l2, config)
  {
    var d := (config.levels.1 - config.levels.0) as real;
    var a := (l1 - config.levels.0) as real;
    var b := (l2 - config.levels.0) as real;
    assert b / d - a / d == (b - a) / d;
  }
}

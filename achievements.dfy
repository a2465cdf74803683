/**
 * Achievements and player statistics (src/utils/achievements.js).
 *
 * The ten achievements are checked against a statistics object in their order of definition; an achievement
 * unlocks once, and the list of unlocked ids only grows. The statistics merge an update into the stored
 * values, keeping the largest cascade and match and the fewest moves. The two localStorage entries become the
 * fields of AchievementStore; titles, descriptions and icons are display text and are not modelled.
 */
module Achievements {
  import opened Wrappers

  // ---------------------------------------------------------------------------------------------
  // Statistics
  // ---------------------------------------------------------------------------------------------

  /** A property of the statistics object. The updates may carry any property, and the spread copies it. */
  datatype StatKey =
    | TotalCompleted | CurrentLevel | MaxCascade | MaxMatch | BestMoves
    | Cascade | MatchSize | Moves
    | Other(name: string)

  /** The statistics object: a property that is absent is `undefined`. */
  type Stats = map<StatKey, int>

  /** What getStats returns when nothing is stored. */
  function DefaultStats(): (d: Stats)
    ensures forall a :: !Check(a, d)
  {
    map[TotalCompleted := 0, CurrentLevel := 1, MaxCascade := 0, MaxMatch := 0, BestMoves := 999]
  }

  /** getStats: the stored statistics, or the defaults when nothing is stored. */
  function StatsOrDefault(saved: Option<Stats>): (s: Stats)
    ensures saved.None? ==> forall a :: !Check(a, s)
    ensures saved.Some? ==> s == saved.value
  {
    if saved.Some? then saved.value else DefaultStats()
  }

  /** `stats[k] || d`: an absent property and 0 both read as d. */
  function Or(stats: Stats, k: StatKey, d: int): (v: int)
    ensures v == d || (k in stats && v == stats[k] != 0)
    ensures k in stats && stats[k] != 0 ==> v == stats[k]
  {
    if k in stats && stats[k] != 0 then stats[k] else d
  }

  /** `stats[k] >= n`: false when the property is absent, as `undefined >= n` is in JavaScript. */
  predicate AtLeast(stats: Stats, k: StatKey, n: int)
  {
    k in stats && stats[k] >= n
  }

  function Max(a: int, b: int): int
  {
    if a >= b then a else b
  }

  function Min(a: int, b: int): int
  {
    if a <= b then a else b
  }

  /** updateStats' newStats: the updates overwrite the stored values, except that a `cascade` update keeps the
      larger of it and maxCascade, a `matchSize` update the larger of it and maxMatch, and a `moves` update the
      smaller of it and bestMoves (an absent or 0 bestMoves counting as 999). */
  function MergeStats(stats: Stats, updates: Stats): (merged: Stats)
    ensures merged.Keys >= stats.Keys + updates.Keys
    ensures forall k :: k in updates && !Tracked(k, updates) ==> merged[k] == updates[k]
    ensures forall k :: k in stats && k !in updates && !Tracked(k, updates) ==> merged[k] == stats[k]
  {
    var spread := stats + updates;
    var withCascade := if Cascade in updates then spread[MaxCascade := Max(Or(stats, MaxCascade, 0), updates[Cascade])] else spread;
    var withMatch := if MatchSize in updates then withCascade[MaxMatch := Max(Or(stats, MaxMatch, 0), updates[MatchSize])] else withCascade;
    if Moves in updates then withMatch[BestMoves := Min(Or(stats, BestMoves, 999), updates[Moves])] else withMatch
  }

  /** The records that a field of the updates replaces by a maximum or minimum rule. */
  predicate Tracked(k: StatKey, updates: Stats)
  {
    (k == MaxCascade && Cascade in updates) || (k == MaxMatch && MatchSize in updates) || (k == BestMoves && Moves in updates)
  }

  /** The rules of updateStats: each of the three tracked records is the maximum (or minimum) of the stored
      record and the update; every other property of the updates overwrites; every property the updates do not
      touch is kept; nothing else appears. */
  lemma MergeRules(stats: Stats, updates: Stats)
    ensures var merged := MergeStats(stats, updates);
      && (Cascade in updates ==>
            MaxCascade in merged && merged[MaxCascade] >= Or(stats, MaxCascade, 0) && merged[MaxCascade] >= updates[Cascade]
            && (merged[MaxCascade] == Or(stats, MaxCascade, 0) || merged[MaxCascade] == updates[Cascade]))
      && (MatchSize in updates ==>
            MaxMatch in merged && merged[MaxMatch] >= Or(stats, MaxMatch, 0) && merged[MaxMatch] >= updates[MatchSize]
            && (merged[MaxMatch] == Or(stats, MaxMatch, 0) || merged[MaxMatch] == updates[MatchSize]))
      && (Moves in updates ==>
            BestMoves in merged && merged[BestMoves] <= Or(stats, BestMoves, 999) && merged[BestMoves] <= updates[Moves]
            && (merged[BestMoves] == Or(stats, BestMoves, 999) || merged[BestMoves] == updates[Moves]))
      && (forall k :: (k in updates && !Tracked(k, updates)) ==> k in merged && merged[k] == updates[k])
      && (forall k :: (k in stats && k !in updates && !Tracked(k, updates)) ==> k in merged && merged[k] == stats[k])
      && merged.Keys == stats.Keys + updates.Keys + (if Cascade in updates then {MaxCascade} else {})
                        + (if MatchSize in updates then {MaxMatch} else {}) + (if Moves in updates then {BestMoves} else {})
  {
  }

  /** A stored cascade or match record never falls when the update carries a cascade or a match size, and a
      positive bestMoves never rises when the update carries a positive move count. */
  lemma MergeKeepsRecords(stats: Stats, updates: Stats)
    ensures Cascade in updates && MaxCascade in stats ==> MergeStats(stats, updates)[MaxCascade] >= stats[MaxCascade]
    ensures MatchSize in updates && MaxMatch in stats ==> MergeStats(stats, updates)[MaxMatch] >= stats[MaxMatch]
    ensures Moves in updates && updates[Moves] > 0 && BestMoves in stats && stats[BestMoves] > 0 ==>
              0 < MergeStats(stats, updates)[BestMoves] <= stats[BestMoves]
  {
    MergeRules(stats, updates);
  }

  // ---------------------------------------------------------------------------------------------
  // The achievements
  // ---------------------------------------------------------------------------------------------

  datatype Achievement =
    | FirstWin | Level5 | Level10 | Level20 | ComboKing | Perfectionist | Marathon | MegaMatch | CascadeMaster | Efficient

  /** Object.values(ACHIEVEMENTS): the order of definition. */
  function AllAchievements(): seq<Achievement>
  {
    [FirstWin, Level5, Level10, Level20, ComboKing, Perfectionist, Marathon, MegaMatch, CascadeMaster, Efficient]
  }

  /** The position of an achievement in the order of definition. */
  function Ordinal(a: Achievement): (i: nat)
    ensures i < |AllAchievements()| && AllAchievements()[i] == a
  {
    match a
    case FirstWin => 0
    case Level5 => 1
    case Level10 => 2
    case Level20 => 3
    case ComboKing => 4
    case Perfectionist => 5
    case Marathon => 6
    case MegaMatch => 7
    case CascadeMaster => 8
    case Efficient => 9
  }

  /** The id stored in the list of unlocked achievements. */
  function Id(a: Achievement): string
  {
    match a
    case FirstWin => "first_win"
    case Level5 => "level_5"
    case Level10 => "level_10"
    case Level20 => "level_20"
    case ComboKing => "combo_king"
    case Perfectionist => "perfectionist"
    case Marathon => "marathon"
    case MegaMatch => "mega_match"
    case CascadeMaster => "cascade_master"
    case Efficient => "efficient"
  }

  /** No two achievements share an id: the ids differ in length, in their first letter or in their seventh. */
  lemma IdsDiffer(a: Achievement, b: Achievement)
    requires a != b
    ensures Id(a) != Id(b)
  {
    assert |Id(a)| != |Id(b)| || Id(a)[0] != Id(b)[0] || Id(a)[6] != Id(b)[6];
  }

  /** The check of each achievement. */
  predicate Check(a: Achievement, stats: Stats)
  {
    match a
    case FirstWin => AtLeast(stats, TotalCompleted, 1)
    case Level5 => AtLeast(stats, CurrentLevel, 5)
    case Level10 => AtLeast(stats, CurrentLevel, 10)
    case Level20 => AtLeast(stats, CurrentLevel, 20)
    case ComboKing => AtLeast(stats, MaxCascade, 5)
    case Perfectionist => BestMoves in stats && 0 < stats[BestMoves] <= 10
    case Marathon => AtLeast(stats, TotalCompleted, 50)
    case MegaMatch => AtLeast(stats, MaxMatch, 6)
    case CascadeMaster => AtLeast(stats, MaxCascade, 7)
    case Efficient => BestMoves in stats && 0 < stats[BestMoves] <= 5
  }

  /** Any stats that satisfy EFFICIENT satisfy PERFECTIONIST, and any that satisfy CASCADE_MASTER satisfy
      COMBO_KING. */
  lemma StricterImpliesWeaker(stats: Stats)
    ensures Check(Efficient, stats) ==> Check(Perfectionist, stats)
    ensures Check(CascadeMaster, stats) ==> Check(ComboKing, stats)
  {
  }

  /** The record-based checks survive updateStats: once met, COMBO_KING, CASCADE_MASTER and MEGA_MATCH stay met
      after a merge of cascade or match sizes, and PERFECTIONIST and EFFICIENT after a merge of a positive move
      count, as long as the updates do not overwrite the record fields themselves. */
  lemma RecordChecksSurviveMerge(a: Achievement, stats: Stats, updates: Stats)
    requires MaxCascade !in updates && MaxMatch !in updates && BestMoves !in updates
    requires Moves in updates ==> updates[Moves] > 0
    requires Check(a, stats)
    ensures a.ComboKing? || a.CascadeMaster? ==> Check(a, MergeStats(stats, updates))
    ensures a.MegaMatch? ==> Check(a, MergeStats(stats, updates))
    ensures a.Perfectionist? || a.Efficient? ==> Check(a, MergeStats(stats, updates))
  {
    MergeKeepsRecords(stats, updates);
  }

  /** The achievements of `candidates`, in their order, that are eligible. */
  function Unlockable(candidates: seq<Achievement>, eligible: set<Achievement>): (r: seq<Achievement>)
    ensures forall a :: a in r <==> a in candidates && a in eligible
    ensures r == [] <==> forall a :: a in candidates ==> a !in eligible
    ensures |r| <= |candidates|
    decreases |candidates|
  {
    if candidates == [] then []
    else
      var a := candidates[|candidates| - 1];
      Unlockable(candidates[..|candidates| - 1], eligible) + if a in eligible then [a] else []
  }

  /** The achievements whose id is not in `unlocked` and whose check holds. */
  function Eligible(unlocked: seq<string>, stats: Stats): (eligible: set<Achievement>)
    ensures forall a :: a in eligible <==> Id(a) !in unlocked && Check(a, stats)
  {
    AllListed();
    set a | a in AllAchievements() && Id(a) !in unlocked && Check(a, stats)
  }

  /** What checkAchievements returns: every achievement not yet unlocked whose check holds. */
  function NewlyUnlocked(unlocked: seq<string>, stats: Stats): (newly: seq<Achievement>)
    ensures forall a :: a in newly ==> Id(a) !in unlocked && Check(a, stats)
    ensures |newly| <= |AllAchievements()|
  {
    Unlockable(AllAchievements(), Eligible(unlocked, stats))
  }

  function Ids(achievements: seq<Achievement>): (ids: seq<string>)
    ensures |ids| == |achievements| && forall i :: 0 <= i < |ids| ==> ids[i] == Id(achievements[i])
  {
    seq(|achievements|, i requires 0 <= i < |achievements| => Id(achievements[i]))
  }

  lemma IdsAppend(achievements: seq<Achievement>, a: Achievement)
    ensures Ids(achievements + [a]) == Ids(achievements) + [Id(a)]
  {
  }

  lemma PushKeeps(base: seq<string>, pushed: seq<string>, id: string)
    ensures base + pushed + [id] == base + (pushed + [id])
  {
  }

  /** Each position of the order of definition holds the achievement of that ordinal. */
  lemma OrdinalOfPosition(k: int)
    requires 0 <= k < |AllAchievements()|
    ensures Ordinal(AllAchievements()[k]) == k
  {
  }

  /** ACHIEVEMENTS lists every achievement once, in the order of the ordinals. */
  lemma DefinitionOrder()
    ensures InOrder(AllAchievements())
  {
    forall i, j | 0 <= i < j < |AllAchievements()|
      ensures Ordinal(AllAchievements()[i]) < Ordinal(AllAchievements()[j])
    {
      OrdinalOfPosition(i);
      OrdinalOfPosition(j);
    }
  }

  lemma Listed(a: Achievement)
    ensures a in AllAchievements()
  {
    assert AllAchievements()[Ordinal(a)] == a;
  }

  /** Object.values(ACHIEVEMENTS) leaves none out. */
  lemma AllListed()
    ensures forall a :: a in AllAchievements()
  {
    forall a
      ensures a in AllAchievements()
    {
      Listed(a);
    }
  }

  /** The achievements come in the order of definition, each once. */
  predicate InOrder(achievements: seq<Achievement>)
  {
    forall i, j :: 0 <= i < j < |achievements| ==> Ordinal(achievements[i]) < Ordinal(achievements[j])
  }

  /** Filtering keeps every achievement below a bound on the ordinals. */
  lemma AllBefore(candidates: seq<Achievement>, eligible: set<Achievement>, bound: nat)
    requires forall k :: 0 <= k < |candidates| ==> Ordinal(candidates[k]) < bound
    ensures forall a :: a in Unlockable(candidates, eligible) ==> Ordinal(a) < bound
  {
  }

  /** Filtering candidates that come in the order of definition keeps that order. */
  lemma {:induction false} UnlockableInOrder(candidates: seq<Achievement>, eligible: set<Achievement>)
    requires InOrder(candidates)
    ensures InOrder(Unlockable(candidates, eligible))
    decreases |candidates|
  {
    if candidates != [] {
      var n := |candidates|;
      var prefix, last := candidates[..n - 1], candidates[n - 1];
      UnlockableInOrder(prefix, eligible);
      assert forall k :: 0 <= k < |prefix| ==> Ordinal(prefix[k]) < Ordinal(last) by {
        forall k | 0 <= k < |prefix|
          ensures Ordinal(prefix[k]) < Ordinal(last)
        {
          assert prefix[k] == candidates[k];
        }
      }
      AllBefore(prefix, eligible, Ordinal(last));
      var front := Unlockable(prefix, eligible);
      var r := Unlockable(candidates, eligible);
      assert r == front + if last in eligible then [last] else [];
      forall i, j | 0 <= i < j < |r|
        ensures Ordinal(r[i]) < Ordinal(r[j])
      {
        assert r[i] == front[i];
        if j >= |front| {
          assert r[j] == last;
          assert front[i] in front;
        } else {
          assert r[j] == front[j];
          assert Ordinal(front[i]) < Ordinal(front[j]);
        }
      }
    }
  }

  /** checkAchievements' result, as the source states it: exactly the achievements not yet unlocked whose check
      holds, in the order of definition, each once. */
  lemma NewlyUnlockedExact(unlocked: seq<string>, stats: Stats)
    ensures var r := NewlyUnlocked(unlocked, stats);
            && (forall a :: a in r <==> Id(a) !in unlocked && Check(a, stats))
            && InOrder(r)
  {
    DefinitionOrder();
    UnlockableInOrder(AllAchievements(), Eligible(unlocked, stats));
    var r := NewlyUnlocked(unlocked, stats);
    forall a
      ensures a in r <==> Id(a) !in unlocked && Check(a, stats)
    {
      Listed(a);
      assert a in r <==> a in Eligible(unlocked, stats);
    }
  }

  /** A second check with the same stats, after the first one's ids are added, unlocks nothing. */
  lemma CheckIdempotent(unlocked: seq<string>, stats: Stats)
    ensures NewlyUnlocked(unlocked + Ids(NewlyUnlocked(unlocked, stats)), stats) == []
  {
    var first := NewlyUnlocked(unlocked, stats);
    var after := unlocked + Ids(first);
    var second := NewlyUnlocked(after, stats);
    NewlyUnlockedExact(unlocked, stats);
    forall a | a in AllAchievements() && Id(a) !in unlocked && Check(a, stats)
      ensures Id(a) in after
    {
      assert a in first;
      var i :| 0 <= i < |first| && first[i] == a;
      assert Ids(first)[i] == Id(a);
    }
  }

  /** With nothing stored, no achievement unlocks: in particular neither PERFECTIONIST nor EFFICIENT, whose
      bestMoves of 999 is far above their bound. */
  lemma DefaultsUnlockNothing(unlocked: seq<string>)
    ensures !Check(Perfectionist, DefaultStats()) && !Check(Efficient, DefaultStats())
    ensures NewlyUnlocked(unlocked, DefaultStats()) == []
  {
    forall a | a in AllAchievements()
      ensures !Check(a, DefaultStats())
    {
    }
  }

  /** One more achievement of the loop: its id is not among those the earlier ones pushed, so the loop's test
      on the grown list is eligibility; an eligible achievement is appended, with its id pushed. */
  lemma NextCandidate(candidates: seq<Achievement>, i: nat, unlocked: seq<string>, stats: Stats,
                      newly: seq<Achievement>, list: seq<string>)
    requires InOrder(candidates) && i < |candidates|
    requires newly == Unlockable(candidates[..i], Eligible(unlocked, stats))
    requires list == unlocked + Ids(newly)
    ensures Id(candidates[i]) !in list && Check(candidates[i], stats) <==> candidates[i] in Eligible(unlocked, stats)
    ensures candidates[i] in Eligible(unlocked, stats) ==>
              && Unlockable(candidates[..i + 1], Eligible(unlocked, stats)) == newly + [candidates[i]]
              && list + [Id(candidates[i])] == unlocked + Ids(newly + [candidates[i]])
    ensures candidates[i] !in Eligible(unlocked, stats) ==> Unlockable(candidates[..i + 1], Eligible(unlocked, stats)) == newly
  {
    var a := candidates[i];
    assert candidates[..i + 1][..i] == candidates[..i];
    Listed(a);
    assert forall k :: 0 <= k < |candidates[..i]| ==> Ordinal(candidates[..i][k]) < Ordinal(a);
    AllBefore(candidates[..i], Eligible(unlocked, stats), Ordinal(a));
    forall k | 0 <= k < |newly|
      ensures Ids(newly)[k] != Id(a)
    {
      assert newly[k] in newly;
      IdsDiffer(newly[k], a);
    }
    IdsAppend(newly, a);
    PushKeeps(unlocked, Ids(newly), Id(a));
  }

  /** The forEach of checkAchievements over the achievements (given in the order of definition): returns the newly
      unlocked ones and the list with their ids pushed on. */
  method UnlockPass(candidates: seq<Achievement>, unlocked: seq<string>, stats: Stats)
    returns (newlyUnlocked: seq<Achievement>, list: seq<string>)
    requires InOrder(candidates)
    ensures newlyUnlocked == Unlockable(candidates, Eligible(unlocked, stats))
    ensures list == unlocked + Ids(newlyUnlocked)
  {
    list := unlocked;
    newlyUnlocked := [];
    for i := 0 to |candidates|
      invariant newlyUnlocked == Unlockable(candidates[..i], Eligible(unlocked, stats))
      invariant list == unlocked + Ids(newlyUnlocked)
    {
      var a := candidates[i];
      NextCandidate(candidates, i, unlocked, stats, newlyUnlocked, list);
      var qualifies := Id(a) !in list && Check(a, stats);
      if qualifies {
        newlyUnlocked := newlyUnlocked + [a];
        list := list + [Id(a)];
      }
    }
    assert candidates[..|candidates|] == candidates;
  }

  /** The forEach over Object.values(ACHIEVEMENTS): when nothing unlocks, the list is what it was. */
  method CheckPass(unlocked: seq<string>, stats: Stats) returns (newlyUnlocked: seq<Achievement>, list: seq<string>)
    ensures newlyUnlocked == NewlyUnlocked(unlocked, stats)
    ensures list == unlocked + Ids(newlyUnlocked)
    ensures |newlyUnlocked| == 0 ==> list == unlocked
  {
    DefinitionOrder();
    newlyUnlocked, list := UnlockPass(AllAchievements(), unlocked, stats);
    assert |newlyUnlocked| == 0 ==> Ids(newlyUnlocked) == [];
  }

  // ---------------------------------------------------------------------------------------------
  // The stored state
  // ---------------------------------------------------------------------------------------------

  /** The two localStorage entries: `gameStats` (absent until first saved) and `unlockedAchievements`. Reading
      an entry that fails to parse is not modelled. */
  class AchievementStore {
    var savedStats: Option<Stats>
    var unlocked: seq<string>

    constructor()
      ensures savedStats == None && unlocked == []
    {
      savedStats := None;
      unlocked := [];
    }

    /** checkAchievements: the achievements run in the order of definition; each one whose id is not yet in the
        list and whose check holds is returned and its id appended. The list is saved only when something
        unlocked; the stats are not written. */
    method CheckAchievements(stats: Stats) returns (newlyUnlocked: seq<Achievement>)
      modifies this
      ensures newlyUnlocked == NewlyUnlocked(old(unlocked), stats)
      ensures unlocked == old(unlocked) + Ids(newlyUnlocked)
      ensures savedStats == old(savedStats)
    {
      var list;
      newlyUnlocked, list := CheckPass(unlocked, stats);
      if |newlyUnlocked| > 0 {
        unlocked := list;
      }
    }

    /** updateStats: the merged stats are saved, then checked for achievements. */
    method UpdateStats(updates: Stats) returns (newlyUnlocked: seq<Achievement>)
      modifies this
      ensures savedStats == Some(MergeStats(StatsOrDefault(old(savedStats)), updates))
      ensures newlyUnlocked == NewlyUnlocked(old(unlocked), savedStats.value)
      ensures unlocked == old(unlocked) + Ids(newlyUnlocked)
    {
      var stats := StatsOrDefault(savedStats);
      var newStats := MergeStats(stats, updates);
      savedStats := Some(newStats);
      newlyUnlocked := CheckAchievements(newStats);
    }
  }
}

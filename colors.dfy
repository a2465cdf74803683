/**
 * The crystal colours and the palette of each tier (src/constants/colors.js).
 * The hexadecimal display codes are presentation only and are not modelled.
 */
module Colors {

  datatype Color = Red | Blue | Green | Yellow | Purple | Orange

  /** COLOR_NAMES: the keys of COLORS in declaration order. */
  function ColorNames(): (names: seq<Color>)
    ensures |names| == 6
  {
    [Red, Blue, Green, Yellow, Purple, Orange]
  }

  /** COLOR_NAMES lists every colour there is. */
  lemma EveryColorNamed()
    ensures forall c: Color :: c in ColorNames()
  {
    forall c: Color
      ensures c in ColorNames()
    {
      match c
      case Red => assert ColorNames()[0] == c;
      case Blue => assert ColorNames()[1] == c;
      case Green => assert ColorNames()[2] == c;
      case Yellow => assert ColorNames()[3] == c;
      case Purple => assert ColorNames()[4] == c;
      case Orange => assert ColorNames()[5] == c;
    }
  }

  /** No colour occurs twice in a sequence. */
  predicate Distinct(s: seq<Color>)
  {
    forall i, j :: 0 <= i < j < |s| ==> s[i] != s[j]
  }

  /** The `colorCounts[tier] || 4` lookup: tiers 1..4 have an entry, anything else gets 4. */
  function PaletteSize(tier: int): (k: nat)
    ensures 4 <= k <= 6
  {
    if tier == 1 then 4
    else if tier == 2 then 5
    else if tier == 3 then 6
    else if tier == 4 then 6
    else 4
  }

  /** getColorsForTier: the first PaletteSize(tier) colour names. */
  function ColorsForTier(tier: int): (palette: seq<Color>)
    ensures |palette| == PaletteSize(tier)
    ensures palette == ColorNames()[..|palette|]
  {
    ColorNames()[..PaletteSize(tier)]
  }

  lemma ColorNamesDistinct()
    ensures Distinct(ColorNames())
  {
  }

  /** Every palette is a prefix of COLOR_NAMES, of length 4, 5, 6, 6 for tiers 1..4 and 4 otherwise,
      and has no repeated colour. */
  lemma PaletteShape(tier: int)
    ensures Distinct(ColorsForTier(tier))
    ensures tier == 1 ==> |ColorsForTier(tier)| == 4
    ensures tier == 2 ==> |ColorsForTier(tier)| == 5
    ensures tier == 3 ==> |ColorsForTier(tier)| == 6
    ensures tier == 4 ==> ColorsForTier(tier) == ColorNames()
    ensures tier !in {1, 2, 3, 4} ==> ColorsForTier(tier) == [Red, Blue, Green, Yellow]
  {
  }

  /** A palette always holds at least three different colours (what the grid generator needs). */
  lemma PaletteHasThreeColors(tier: int)
    ensures |ColorsForTier(tier)| >= 3
    ensures ColorsForTier(tier)[0] == Red && ColorsForTier(tier)[1] == Blue && ColorsForTier(tier)[2] == Green
  {
  }
}

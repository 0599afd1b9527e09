/**
 The colouring decisions of `write_stats`, without the drawing: which maximum each
 field's value is measured against, and the colour of the loot chance.
 */
module Display {
  import opened Wrappers
  import opened Stats
  import ColourScale
  import LootChance

  /**
   The maximum `write_stats` hands to `cp_scale` for a field: 100 for every
   percentage, 10 for a faction rank, 30 for a trade or combat rank (the rank is
   the part of the title field before " - "). The fight rank is coloured through
   the loot chance derived from it, a percentage against 100 (see `LootColour`).
   Credits, the two times and the property counters are not passed to `cp_scale`:
   credits are drawn in the fixed colour pair 4, the others in the default attribute.
   */
  function ScaleOf(f: Field): (m: Option<int>)
    ensures f.FactionPerc? || f.CareerPerc? || f.FlcRank? ==> m == Some(100)
    ensures f.FactionTitle? ==> m == Some(10)
    ensures f.CareerTitle? ==> m == Some(30)
    ensures m.None? <==> f.Credits? || f.TimePlayed? || f.TimeReal? || f.Count?
  {
    match f
    case FactionPerc(_) => Some(100)
    case CareerPerc(_) => Some(100)
    case FlcRank => Some(100)
    case FactionTitle(_) => Some(10)
    case CareerTitle(_) => Some(30)
    case _ => None
  }

  /**
   `write_stats` passes the field text itself to `cp_scale`, so a "0" is never
   promoted to 1. At every maximum in the table that makes no difference: both
   zero and one fall below 20% and are drawn red.
   */
  lemma PromotionInvisibleAtTableScales(f: Field)
    requires ScaleOf(f).Some?
    ensures var m := ScaleOf(f).value;
      && ColourScale.CpScale(0, m) == ColourScale.Classify(0, m).Pair()
      && ColourScale.CpScale(0, m) == ColourScale.Colour.Red.Pair()
  {
  }

  /** The loot chance in units of 1/10000 percent, the exact numerator of `get_flc_perc`. */
  function LootUnits(rank: int): int {
    (LootChance.FlcPerc(rank) * 10000.0).Floor
  }

  /**
   The colour of the loot-chance line: `cp_scale(str(chance), 100)`, a percentage
   that is the chance itself; the text argument is never promoted. Green from a
   chance of 80, cyan from 60, white from 40, yellow from 20, red below.
   */
  function LootColour(rank: int): (pair: int)
    ensures var chance := LootChance.FlcPerc(rank);
      && (pair == 3 <==> chance >= 80.0)
      && (pair == 7 <==> 60.0 <= chance < 80.0)
      && (pair == 8 <==> 40.0 <= chance < 60.0)
      && (pair == 4 <==> 20.0 <= chance < 40.0)
      && (pair == 2 <==> chance < 20.0)
    ensures 0 <= rank < 10000 ==> pair == ColourScale.Colour.Red.Pair()
  {
    var chance := LootChance.FlcPerc(rank);
    var units := LootUnits(rank);
    assert units as real == chance * 10000.0;
    ColourScale.ClassifyBands(units, 1000000);
    ColourScale.Classify(units, 1000000).Pair()
  }

  /** A higher fight rank never lowers the loot-chance colour tier. */
  lemma LootColourMonotone(rank1: int, rank2: int)
    requires 0 <= rank1 <= rank2
    ensures ColourScale.PairTier(LootColour(rank1)) <= ColourScale.PairTier(LootColour(rank2))
  {
    LootChance.FlcPercMonotone(rank1, rank2);
    assert LootUnits(rank1) <= LootUnits(rank2);
    ColourScale.ReachedMonotone(LootUnits(rank1), LootUnits(rank2), 1000000, ColourScale.Thresholds);
  }
}

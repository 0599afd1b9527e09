/**
 `get_flc_perc(rank)`: the fight-rank loot chance, in percent.

 The source floors after each division, in a fixed order, and divides the product
 by 10000 at the end. Each `floor(a / b)` with a positive constant `b` is Dafny's
 `a / b` on integers; the final division is exact on `real`.
 */
module LootChance {
  import Arith

  const Total := 1000000
  const Factor := 385

  /** The loot chance for a fight rank, floored step by step as the source does. */
  function FlcPerc(rank: int): (chance: real)
    ensures 0 <= rank < 10000 ==> chance == 0.0
    ensures rank >= 0 ==> chance >= 0.0
    ensures (chance * 10000.0).Floor as real == chance * 10000.0
  {
    var chance := (rank * 100) / Total;
    var x := (rank * 1000) / Factor;
    var product := chance * (x / 1000);
    assert rank >= 0 ==> chance >= 0 && x / 1000 >= 0;
    product as real / 10000.0
  }

  /** Scaling dividend and divisor by the same positive factor keeps the floor quotient. */
  lemma CancelFactor(a: int, b: int, m: int)
    requires b > 0 && m > 0
    ensures (a * m) / (b * m) == a / b
  {
    var q, r := a / b, a % b;
    assert a * m == q * (b * m) + r * m;
    assert r * m < b * m by { Arith.MulMonotone(r + 1, m, b, m); }
    assert r * m >= 0;
    Arith.DivUnique(a * m, b * m, q, r * m);
  }

  /**
   The nested floors collapse to two independent ones: the chance is
   floor(rank / 10000) * floor(rank / 385), in units of 1/10000.
   */
  lemma FlcPercClosedForm(rank: int)
    ensures FlcPerc(rank) == ((rank / 10000) * (rank / 385)) as real / 10000.0
  {
    CancelFactor(rank, 10000, 100);
    assert 10000 * 100 == Total;
    assert (rank * 100) / Total == rank / 10000;
    Arith.DivDiv(rank * 1000, Factor, 1000);
    CancelFactor(rank, 385, 1000);
    assert ((rank * 1000) / Factor) / 1000 == rank / 385;
  }

  /** A higher rank never lowers the loot chance. */
  lemma FlcPercMonotone(rank1: int, rank2: int)
    requires 0 <= rank1 <= rank2
    ensures FlcPerc(rank1) <= FlcPerc(rank2)
  {
    FlcPercClosedForm(rank1);
    FlcPercClosedForm(rank2);
    Arith.DivMonotone(rank1, rank2, 10000);
    Arith.DivMonotone(rank1, rank2, 385);
    Arith.MulMonotone(rank1 / 10000, rank1 / 385, rank2 / 10000, rank2 / 385);
  }

  lemma Examples()
    ensures FlcPerc(9999) == 0.0
    ensures FlcPerc(385000) == 3.8
    ensures FlcPerc(500000) == 6.49
    ensures FlcPerc(10000000) == 2597.4
  {
  }
}

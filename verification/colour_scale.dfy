/**
 `cp_scale(n, nmax)`: the curses colour pair for a value shown against its maximum.

 The percentage `100 * n / nmax` is compared with 80, 60, 40 and 20. The source
 computes it in floating point; the model compares exactly by cross-multiplying,
 `100 * n >= t * nmax`, which is the same test for a positive `nmax`.
 */
module ColourScale {

  /** The five colours, lowest tier first, with their curses colour-pair numbers. */
  datatype Colour = Red | Yellow | White | Cyan | Green {
    function Pair(): int {
      match this
      case Green => 3
      case Cyan => 7
      case White => 8
      case Yellow => 4
      case Red => 2
    }

    function Tier(): nat {
      match this
      case Red => 0
      case Yellow => 1
      case White => 2
      case Cyan => 3
      case Green => 4
    }
  }

  /** The tier of a colour-pair number; -1 for a number outside the palette. */
  function PairTier(pair: int): int {
    if pair == 3 then 4
    else if pair == 7 then 3
    else if pair == 8 then 2
    else if pair == 4 then 1
    else if pair == 2 then 0
    else -1
  }

  /** Percentage thresholds, in increasing order. */
  const Thresholds: seq<int> := [20, 40, 60, 80]

  /** How many of the thresholds `ts` the percentage `100 * n / nmax` reaches. */
  function Reached(n: int, nmax: int, ts: seq<int>): nat
    decreases |ts|
  {
    if |ts| == 0 then 0
    else (if 100 * n >= ts[0] * nmax then 1 else 0) + Reached(n, nmax, ts[1..])
  }

  /** The colour for the percentage `100 * n / nmax`: one tier per threshold reached. */
  function Classify(n: int, nmax: int): (c: Colour)
    requires nmax > 0
    ensures c.Tier() == Reached(n, nmax, Thresholds)
  {
    if 100 * n >= 80 * nmax then Green
    else if 100 * n >= 60 * nmax then Cyan
    else if 100 * n >= 40 * nmax then White
    else if 100 * n >= 20 * nmax then Yellow
    else Red
  }

  /** The source promotes a zero value to one before taking the percentage. */
  function Promote(n: int): (p: int)
    ensures p != 0
    ensures n != 0 ==> p == n
  {
    if n == 0 then 1 else n
  }

  /**
   `cp_scale`: always a pair number of the palette, of the tier given by the number of
   thresholds the (promoted) percentage reaches.
   */
  function CpScale(n: int, nmax: int): (pair: int)
    requires nmax > 0
    ensures pair in {3, 7, 8, 4, 2}
    ensures PairTier(pair) == Reached(Promote(n), nmax, Thresholds)
  {
    Classify(Promote(n), nmax).Pair()
  }

  /** Reaching thresholds is monotone in the value. */
  lemma {:induction false} ReachedMonotone(n1: int, n2: int, nmax: int, ts: seq<int>)
    requires n1 <= n2 && nmax > 0
    ensures Reached(n1, nmax, ts) <= Reached(n2, nmax, ts)
    decreases |ts|
  {
    if |ts| > 0 {
      ReachedMonotone(n1, n2, nmax, ts[1..]);
    }
  }

  /** A larger value never gets a lower colour tier. */
  lemma CpScaleMonotone(n1: int, n2: int, nmax: int)
    requires n1 <= n2 && nmax > 0
    ensures PairTier(CpScale(n1, nmax)) <= PairTier(CpScale(n2, nmax))
  {
    ReachedMonotone(Promote(n1), Promote(n2), nmax, Thresholds);
  }

  /** Zero is coloured as one. */
  lemma ZeroIsPromoted(nmax: int)
    requires nmax > 0
    ensures CpScale(0, nmax) == CpScale(1, nmax)
  {
  }

  /** The bands of `Classify` spelled out, for the percentage `100 * n / nmax`. */
  lemma ClassifyBands(n: int, nmax: int)
    requires nmax > 0
    ensures var p := 100 * n; var pair := Classify(n, nmax).Pair();
      && (pair == 3 <==> p >= 80 * nmax)
      && (pair == 7 <==> 60 * nmax <= p < 80 * nmax)
      && (pair == 8 <==> 40 * nmax <= p < 60 * nmax)
      && (pair == 4 <==> 20 * nmax <= p < 40 * nmax)
      && (pair == 2 <==> p < 20 * nmax)
  {
  }

  /** The bands spelled out: green from 80%, cyan from 60%, white from 40%, yellow from 20%, red below. */
  lemma CpScaleBands(n: int, nmax: int)
    requires nmax > 0
    ensures var p := 100 * Promote(n); var pair := CpScale(n, nmax);
      && (pair == 3 <==> p >= 80 * nmax)
      && (pair == 7 <==> 60 * nmax <= p < 80 * nmax)
      && (pair == 8 <==> 40 * nmax <= p < 60 * nmax)
      && (pair == 4 <==> 20 * nmax <= p < 40 * nmax)
      && (pair == 2 <==> p < 20 * nmax)
  {
    var p := 100 * Promote(n);
    assert Thresholds[1..] == [40, 60, 80] && Thresholds[2..] == [60, 80] && Thresholds[3..] == [80];
    var r := Reached(Promote(n), nmax, Thresholds);
    assert r == (if p >= 20 * nmax then 1 else 0) + (if p >= 40 * nmax then 1 else 0)
      + (if p >= 60 * nmax then 1 else 0) + (if p >= 80 * nmax then 1 else 0);
  }
}

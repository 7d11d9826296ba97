/**
  Distances between vending machines (randomFloat). A distance is kept as a
  whole number of hundredths of a meter, so that the two decimal digits the
  generator keeps are exact.
 */
module Distances {
  import opened Random

  /** Estimated largest and smallest separation of two machines, in meters. */
  const MaxDist: nat := 500
  const MinDist: nat := 30
  /** Number of decimal digits kept after the point. */
  const Precision: nat := 2

  function Pow10(k: nat): (r: nat)
    ensures r >= 1
  {
    if k == 0 then 1 else 10 * Pow10(k - 1)
  }

  /** Hundredths per meter: one unit is the last decimal digit kept. */
  const Scale: nat := Pow10(Precision)

  /** `w` hundredths is a distance the generator can draw: from MinDist
      meters included to MaxDist meters excluded. */
  predicate IsWeight(w: int)
  {
    MinDist * Scale <= w < MaxDist * Scale
  }

  /** The distance drawn from the two rand() values `r1` (drawn first, it
      gives the digits after the point) and `r2` (it gives the whole meters). */
  function Distance(r1: nat, r2: nat): (w: int)
    ensures IsWeight(w)
  {
    (r2 % (MaxDist - MinDist) + MinDist) * Scale + r1 % Scale
  }

  /** The whole meters of a drawn distance come from `r2` alone, and the
      hundredths from `r1` alone. */
  lemma DistanceParts(r1: nat, r2: nat)
    ensures Distance(r1, r2) / Scale == r2 % (MaxDist - MinDist) + MinDist
    ensures Distance(r1, r2) % Scale == r1 % Scale
  {
    assert Scale == 100;
    var m := r2 % (MaxDist - MinDist) + MinDist;
    var f := r1 % Scale;
    assert Distance(r1, r2) == m * 100 + f;
    assert 0 <= f < 100;
  }

  /** Every distance from MinDist to MaxDist with two decimals can be drawn:
      the draws giving it are its hundredths and its whole meters above
      MinDist. */
  lemma EveryWeightIsDrawn(w: int)
    requires IsWeight(w)
    ensures Distance(w % Scale, w / Scale - MinDist) == w
  {
    assert Scale == 100;
    assert 30 <= w / 100 < 500;
    var r2 := w / 100 - 30;
    assert r2 % 470 == r2;
  }

  /** randomFloat(): two calls of rand(), the first for the hundredths, the
      second for the whole meters. */
  method RandomFloat(rng: Rand) returns (w: int)
    modifies rng
    ensures rng.pos == old(rng.pos) + 2
    ensures w == Distance(rng.stream(old(rng.pos)), rng.stream(old(rng.pos) + 1))
  {
    var divisor := 1;
    for i := 0 to Precision
      invariant divisor == Pow10(i)
    {
      divisor := divisor * 10;
    }
    var r1 := rng.Next();
    var fraction := r1 % divisor;
    var r2 := rng.Next();
    w := fraction + (r2 % (MaxDist - MinDist) + MinDist) * divisor;
  }
}

/**
 * The tiered cost per unit of distance (calculate_cost_per_unit, api/index.py, lines 12-18):
 * a flat rate of 10 up to a weight of 5, then 8 more per block computed as `(weight - 5 + 4) // 5`.
 */
module Tiers {

  /** The rate as the source computes it, with Python's flooring `//` on the weight. */
  function CostPerUnit(weight: real): (r: real)
    ensures r >= 10.0
    ensures weight <= 5.0 ==> r == 10.0
  {
    if weight <= 5.0 then 10.0
    else
      var additional := weight - 5.0;
      var blocks := ((additional + 4.0) / 5.0).Floor;
      10.0 + blocks as real * 8.0
  }

  /** Number of 8-unit increments above the base rate of 10. */
  function Increments(weight: real): (k: nat)
    ensures CostPerUnit(weight) == 10.0 + 8.0 * k as real
  {
    if weight <= 5.0 then 0 else ((weight - 1.0) / 5.0).Floor
  }

  /** Smallest integer not below `x`. */
  function Ceil(x: real): (n: int)
    ensures n as real >= x && (n - 1) as real < x
  {
    -((-x).Floor)
  }

  /** The rate with every started block of 5 above the first 5 charged: the ceiling reading. */
  function CeilingRate(weight: real): (r: real)
    ensures r >= 10.0
  {
    if weight <= 5.0 then 10.0 else 10.0 + Ceil((weight - 5.0) / 5.0) as real * 8.0
  }

  /** A heavier load never pays a lower rate. */
  lemma CostPerUnitMonotone(w1: real, w2: real)
    requires w1 <= w2
    ensures CostPerUnit(w1) <= CostPerUnit(w2)
  {
    if w1 > 5.0 {
      assert ((w1 - 1.0) / 5.0).Floor <= ((w2 - 1.0) / 5.0).Floor;
      assert Increments(w1) <= Increments(w2);
    }
  }

  /** Weights from 5n+1 up to (not including) 5n+6 pay 10 + 8n, for n >= 1; below 6 the base rate applies. */
  lemma CostPerUnitBand(weight: real, n: nat)
    requires (n == 0 && weight < 6.0) || (n >= 1 && 5.0 * n as real + 1.0 <= weight < 5.0 * n as real + 6.0)
    ensures CostPerUnit(weight) == 10.0 + 8.0 * n as real
  {
    if weight > 5.0 {
      var q := (weight - 1.0) / 5.0;
      assert n as real <= q < n as real + 1.0;
      assert q.Floor == n;
    }
  }

  /** On whole-number weights the source's rate equals the ceiling reading. */
  lemma CostPerUnitOnIntegers(w: int)
    ensures CostPerUnit(w as real) == CeilingRate(w as real)
  {
    if w > 5 {
      var m := (w - 1) / 5;
      assert 5 * m <= w - 1 < 5 * m + 5;
      var q := (w as real - 1.0) / 5.0;
      assert m as real <= q < m as real + 1.0;
      assert q.Floor == m;
      var c := (w as real - 5.0) / 5.0;
      assert (m - 1) as real < c <= m as real;
      assert Ceil(c) == m;
    }
  }

  /** A fractional weight just above 5 stays at the base rate, where the ceiling reading charges 18. */
  lemma CostPerUnitFractional()
    ensures CostPerUnit(5.5) == 10.0
    ensures CeilingRate(5.5) == 18.0
  {
    assert (4.5 / 5.0).Floor == 0;
    assert Ceil(0.5 / 5.0) == 1;
  }
}

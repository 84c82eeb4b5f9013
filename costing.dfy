/**
 * Path costing (calculate_path_cost, api/index.py, lines 20-46): a path is replayed leg by leg;
 * the weight picked up so far is never reset, and each leg costs its distance times the rate for
 * the weight carried on it.
 */
module Costing {
  import opened Catalog
  import opened Orders
  import opened Tiers

  type Path = seq<Loc>

  /** No leg goes from the hub to the hub; the source has no distance for such a leg. */
  predicate NoHubPair(path: Path) {
    forall k | 0 <= k < |path| - 1 :: !(path[k].Hub? && path[k + 1].Hub?)
  }

  /** A path the source can cost: it has a first location and no hub-to-hub leg. */
  predicate Costable(path: Path) {
    |path| >= 1 && NoHubPair(path)
  }

  /** Distance of one leg: hub to center and center to hub cost the center's distance, a direct
      center-to-center leg is charged as going through the hub. */
  function LegDistance(here: Loc, next: Loc): (d: real)
    requires !(here.Hub? && next.Hub?)
    ensures d > 0.0
    ensures here.Hub? ==> d == Distance(next.id)
    ensures next.Hub? ==> d == Distance(here.id)
    ensures here.Center? && next.Center? ==> d == Distance(here.id) + Distance(next.id)
  {
    if here.Hub? then Distance(next.id)
    else if next.Hub? then Distance(here.id)
    else Distance(here.id) + Distance(next.id)
  }

  /** Cost of one leg travelled carrying `weight`. */
  function LegCharge(here: Loc, next: Loc, weight: real): (r: real)
    requires !(here.Hub? && next.Hub?)
    ensures r >= 10.0 * LegDistance(here, next) > 0.0
  {
    SegmentCost(LegDistance(here, next), CostPerUnit(weight))
  }

  /** A leg's distance times the rate paid on it. */
  function SegmentCost(distance: real, costPerUnit: real): (r: real)
    requires distance > 0.0 && costPerUnit >= 10.0
    ensures r >= 10.0 * distance
  {
    distance * costPerUnit
  }

  /** Weight of the ordered products that center `c` stocks. */
  function CenterLoad(c: CenterId, order: Order): real {
    if |order| == 0 then 0.0
    else
      var item := order[|order| - 1];
      var rest := CenterLoad(c, order[..|order| - 1]);
      if item.product in Stock(c) then rest + item.qty as real * Stock(c)[item.product] else rest
  }

  /** Weight picked up when a leg departs from `loc`: nothing at the hub. */
  function Pickup(loc: Loc, order: Order): real {
    if loc.Center? then CenterLoad(loc.id, order) else 0.0
  }

  /** Weight picked up at all of `locs`, each counted once per occurrence. */
  function PickedUp(locs: seq<Loc>, order: Order): real {
    if |locs| == 0 then 0.0 else PickedUp(locs[..|locs| - 1], order) + Pickup(locs[|locs| - 1], order)
  }

  /** Cost of the legs of `path`: the last leg departs from the penultimate location carrying what
      was picked up at every location before the last. */
  function PathCost(path: Path, order: Order): real
    requires NoHubPair(path)
  {
    if |path| <= 1 then 0.0
    else
      var init := path[..|path| - 1];
      PathCost(init, order) + LegCharge(path[|path| - 2], path[|path| - 1], PickedUp(init, order))
  }

  /** The leg-by-leg walk of the source. */
  method ComputePathCost(path: Path, order: Order) returns (total: real)
    requires Costable(path)
    ensures total == PathCost(path, order)
  {
    total := 0.0;
    var weight := 0.0;
    var current := path[0];
    var i := 1;
    while i < |path|
      invariant 1 <= i <= |path|
      invariant current == path[i - 1]
      invariant weight == PickedUp(path[..i - 1], order)
      invariant total == PathCost(path[..i], order)
    {
      var next := path[i];
      assert !(path[i - 1].Hub? && path[i].Hub?);
      var distance := LegDistance(current, next);
      if current.Center? {
        weight := AddLoad(weight, current.id, order);
      }
      PickedUpStep(path, i, order);
      var costPerUnit := CostPerUnit(weight);
      var segmentCost := SegmentCost(distance, costPerUnit);
      PathCostStep(path, i, order);
      total := total + segmentCost;
      current := next;
      i := i + 1;
    }
    assert path[..i] == path;
  }

  /** The pickup at a center: each ordered product it stocks adds quantity times unit weight. */
  method AddLoad(weight: real, c: CenterId, order: Order) returns (w: real)
    ensures w == weight + CenterLoad(c, order)
  {
    var stock := Stock(c);
    w := weight;
    var j := 0;
    while j < |order|
      invariant 0 <= j <= |order|
      invariant w == weight + CenterLoad(c, order[..j])
    {
      var product, quantity := order[j].product, order[j].qty;
      assert order[..j + 1][..j] == order[..j];
      if product in stock {
        w := w + quantity as real * stock[product];
      }
      j := j + 1;
    }
    assert order[..j] == order;
  }

  lemma PickedUpStep(path: Path, i: nat, order: Order)
    requires 1 <= i <= |path|
    ensures PickedUp(path[..i], order) == PickedUp(path[..i - 1], order) + Pickup(path[i - 1], order)
  {
    assert path[..i][..i - 1] == path[..i - 1];
  }

  lemma PathCostStep(path: Path, i: nat, order: Order)
    requires NoHubPair(path) && 1 <= i < |path|
    ensures NoHubPair(path[..i])
    ensures PathCost(path[..i + 1], order) == PathCost(path[..i], order) + LegCharge(path[i - 1], path[i], PickedUp(path[..i], order))
  {
    var p := path[..i + 1];
    assert p[..i] == path[..i];
    assert NoHubPair(p);
    PathCostUnfold(p, order);
  }

  /** Non-negative quantities: every center's load is non-negative. */
  lemma {:induction false} CenterLoadNonNegative(c: CenterId, order: Order)
    requires forall i | 0 <= i < |order| :: order[i].qty >= 0
    ensures CenterLoad(c, order) >= 0.0
  {
    if |order| > 0 {
      CenterLoadNonNegative(c, order[..|order| - 1]);
    }
  }

  /** The weight carried never decreases along a path: what was picked up over a prefix is at
      most what was picked up over a longer prefix. */
  lemma {:induction false} PickedUpMonotone(path: Path, order: Order, j: nat, k: nat)
    requires j <= k <= |path|
    requires forall i | 0 <= i < |order| :: order[i].qty >= 0
    ensures PickedUp(path[..j], order) <= PickedUp(path[..k], order)
  {
    if j < k {
      PickedUpMonotone(path, order, j, k - 1);
      assert path[..k][..k - 1] == path[..k - 1];
      if path[k - 1].Center? {
        CenterLoadNonNegative(path[k - 1].id, order);
      }
    }
  }

  /** The rate paid on leg j is at most the rate paid on any later leg k. */
  lemma RateNonDecreasing(path: Path, order: Order, j: nat, k: nat)
    requires j <= k < |path|
    requires forall i | 0 <= i < |order| :: order[i].qty >= 0
    ensures CostPerUnit(PickedUp(path[..j + 1], order)) <= CostPerUnit(PickedUp(path[..k + 1], order))
  {
    PickedUpMonotone(path, order, j + 1, k + 1);
    CostPerUnitMonotone(PickedUp(path[..j + 1], order), PickedUp(path[..k + 1], order));
  }

  /** One step of the definition: the last leg is added to the cost of the path without its last
      location. */
  lemma PathCostUnfold(path: Path, order: Order)
    requires NoHubPair(path) && |path| >= 2
    ensures NoHubPair(path[..|path| - 1])
    ensures !(path[|path| - 2].Hub? && path[|path| - 1].Hub?)
    ensures PathCost(path, order) ==
            PathCost(path[..|path| - 1], order) + LegCharge(path[|path| - 2], path[|path| - 1], PickedUp(path[..|path| - 1], order))
  {
  }

  /** The running total never decreases: a prefix of a path costs at most the whole path. */
  lemma {:induction false} PathCostGrows(path: Path, order: Order, k: nat)
    requires NoHubPair(path)
    requires k <= |path|
    ensures PathCost(path[..k], order) <= PathCost(path, order)
  {
    if k == |path| {
      assert path[..k] == path;
    } else if |path| >= 2 {
      var init := path[..|path| - 1];
      assert path[..k] == init[..k];
      PathCostUnfold(path, order);
      PathCostGrows(init, order, k);
    }
  }

  /** Every path costs at least nothing; one with a leg costs more than nothing. */
  lemma {:induction false} PathCostPositive(path: Path, order: Order)
    requires NoHubPair(path)
    ensures PathCost(path, order) >= 0.0
    ensures |path| >= 2 ==> PathCost(path, order) > 0.0
  {
    if |path| > 1 {
      PathCostPositive(path[..|path| - 1], order);
    }
  }

  /** Extending a path by one location adds exactly one leg, carrying everything picked up on the
      old path; the new last location contributes no weight. */
  lemma PathCostSnoc(path: Path, x: Loc, order: Order)
    requires NoHubPair(path) && |path| >= 1
    requires !(path[|path| - 1].Hub? && x.Hub?)
    ensures NoHubPair(path + [x])
    ensures PathCost(path + [x], order) ==
            PathCost(path, order) + LegCharge(path[|path| - 1], x, PickedUp(path, order))
  {
    SnocNoHubPair(path, x);
    var p := path + [x];
    assert p[..|p| - 1] == path;
    assert p[|p| - 2] == path[|path| - 1] && p[|p| - 1] == x;
    PathCostUnfold(p, order);
  }

  /** Appending a location that does not make a hub-to-hub leg keeps the path costable. */
  lemma SnocNoHubPair(path: Path, x: Loc)
    requires NoHubPair(path) && |path| >= 1
    requires !(path[|path| - 1].Hub? && x.Hub?)
    ensures NoHubPair(path + [x])
  {
    var p := path + [x];
    forall k | 0 <= k < |p| - 1 ensures !(p[k].Hub? && p[k + 1].Hub?) {
      if k < |path| - 1 {
        assert p[k] == path[k] && p[k + 1] == path[k + 1];
      } else {
        assert p[k] == path[|path| - 1] && p[k + 1] == x;
      }
    }
  }

  /** A single location is free; a trip from a center straight to the hub costs its distance at
      the rate for that center's load. */
  lemma ShortPathCost(c: CenterId, order: Order)
    ensures PathCost([Center(c)], order) == 0.0
    ensures PathCost([Center(c), Hub], order) == LegCharge(Center(c), Hub, CenterLoad(c, order))
    ensures LegCharge(Center(c), Hub, CenterLoad(c, order)) == Distance(c) * CostPerUnit(CenterLoad(c, order))
  {
    assert [Center(c), Hub][..1] == [Center(c)];
    assert [Center(c)][..0] == [];
    assert PickedUp([Center(c)], order) == CenterLoad(c, order);
  }
}

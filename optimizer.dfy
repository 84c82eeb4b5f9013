/**
 * The request handler's optimisation (calculate_delivery_cost, api/index.py, lines 81-109):
 * validate the order, generate the candidate paths, cost each one and keep the first path whose
 * cost is strictly below the best so far.
 */
module Optimizer {
  import opened Options
  import opened Catalog
  import opened Orders
  import opened Costing
  import opened Generation

  /** The selected path and its cost. */
  datatype Best = Best(cost: real, path: Path)

  predicate AllCostable(paths: seq<Path>) {
    forall k | 0 <= k < |paths| :: Costable(paths[k])
  }

  /** The outcome of the selection loop over `paths`: nothing for no paths, otherwise the first
      path of least cost. */
  function Cheapest(paths: seq<Path>, order: Order): Option<Best>
    requires AllCostable(paths)
  {
    if |paths| == 0 then None
    else
      var prev := Cheapest(paths[..|paths| - 1], order);
      var last := paths[|paths| - 1];
      var cost := PathCost(last, order);
      if prev.None? || cost < prev.value.cost then Some(Best(cost, last)) else prev
  }

  /** The selection loop; the `float('inf')` start value is modelled by having no best yet. */
  method SelectCheapest(paths: seq<Path>, order: Order) returns (best: Option<Best>)
    requires AllCostable(paths)
    ensures best == Cheapest(paths, order)
  {
    best := None;
    for i := 0 to |paths|
      invariant best == Cheapest(paths[..i], order)
    {
      var path := paths[i];
      var cost := ComputePathCost(path, order);
      assert paths[..i + 1][..i] == paths[..i];
      if best.None? || cost < best.value.cost {
        best := Some(Best(cost, path));
      }
    }
    assert paths[..|paths|] == paths;
  }

  /** The selection finds a path exactly when there is one; the path it finds is in the list, has
      the least cost of all, and every earlier path costs strictly more. */
  lemma {:induction false} CheapestIsFirstMinimum(paths: seq<Path>, order: Order)
    requires AllCostable(paths)
    ensures Cheapest(paths, order).None? <==> |paths| == 0
    ensures Cheapest(paths, order).Some? ==>
      var b := Cheapest(paths, order).value;
      (forall j | 0 <= j < |paths| :: b.cost <= PathCost(paths[j], order)) &&
      exists i | 0 <= i < |paths| :: paths[i] == b.path && PathCost(paths[i], order) == b.cost &&
        forall j | 0 <= j < i :: PathCost(paths[j], order) > b.cost
  {
    CheapestIsMinimum(paths, order);
    CheapestIsFirst(paths, order);
  }

  lemma {:induction false} CheapestIsMinimum(paths: seq<Path>, order: Order)
    requires AllCostable(paths)
    ensures Cheapest(paths, order).None? <==> |paths| == 0
    ensures Cheapest(paths, order).Some? ==>
      forall j | 0 <= j < |paths| :: Cheapest(paths, order).value.cost <= PathCost(paths[j], order)
  {
    if |paths| > 0 {
      var init := paths[..|paths| - 1];
      assert AllCostable(init);
      CheapestIsMinimum(init, order);
      assert forall j | 0 <= j < |init| :: init[j] == paths[j];
    }
  }

  lemma {:induction false} CheapestIsFirst(paths: seq<Path>, order: Order)
    requires AllCostable(paths)
    ensures Cheapest(paths, order).Some? ==>
      var b := Cheapest(paths, order).value;
      exists i | 0 <= i < |paths| :: paths[i] == b.path && PathCost(paths[i], order) == b.cost &&
        forall j | 0 <= j < i :: PathCost(paths[j], order) > b.cost
  {
    if |paths| > 0 {
      var init := paths[..|paths| - 1];
      assert AllCostable(init);
      CheapestIsFirst(init, order);
      CheapestIsMinimum(init, order);
      var n := |init|;
      var prev := Cheapest(init, order);
      var cost := PathCost(paths[n], order);
      assert forall j | 0 <= j < n :: init[j] == paths[j];
      if prev.None? || cost < prev.value.cost {
        assert Cheapest(paths, order).value == Best(cost, paths[n]);
      } else {
        var i :| 0 <= i < n && init[i] == prev.value.path && PathCost(init[i], order) == prev.value.cost &&
          forall j | 0 <= j < i :: PathCost(init[j], order) > prev.value.cost;
        assert paths[i] == init[i];
      }
    }
  }

  /** The optimisation: generate, then select. The path found is never missing. */
  method Optimize(order: Order) returns (best: Option<Best>, ghost needed: seq<CenterId>)
    ensures IsListing(needed, NeededSet(order))
    ensures AllCostable(CandidatePaths(needed))
    ensures best == Cheapest(CandidatePaths(needed), order)
    ensures best.Some?
    ensures best.value.path in CandidatePaths(needed)
    ensures best.value.cost == PathCost(best.value.path, order)
    ensures forall k | 0 <= k < |CandidatePaths(needed)| :: best.value.cost <= PathCost(CandidatePaths(needed)[k], order)
  {
    var paths;
    paths, needed := GeneratePaths(order);
    CandidatesWellShaped(needed);
    CandidatesNonEmpty(needed);
    best := SelectCheapest(paths, order);
    CheapestIsFirstMinimum(paths, order);
  }

  /** The handler: refuse an invalid order with the error the checks find, otherwise optimise. */
  method CalculateDeliveryCost(order: Order) returns (r: Result<Best, OrderError>, ghost needed: seq<CenterId>)
    requires DistinctProducts(order)
    ensures r.Err? <==> !(|order| > 0 && ValidOrder(order))
    ensures |order| == 0 ==> r == Err(NoOrderData)
    ensures r.Err? && |order| > 0 ==>
      exists i | 0 <= i < |order| ::
        !ValidItem(order[i]) && r.error == ItemError(order[i]) && forall j | 0 <= j < i :: ValidItem(order[j])
    ensures r.Ok? ==> IsListing(needed, NeededSet(order)) && AllCostable(CandidatePaths(needed))
    ensures r.Ok? ==> Some(r.value) == Cheapest(CandidatePaths(needed), order)
  {
    var err := Validate(order);
    if err.Some? {
      return Err(err.value), [];
    }
    var best;
    best, needed := Optimize(order);
    r := Ok(best.value);
  }
}

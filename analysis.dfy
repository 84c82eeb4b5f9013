/**
 * What the optimiser's result does and does not depend on. A direct chain always costs the same
 * as the hub-bouncing path through the same centers in the same order, because a center-to-center
 * leg is charged as the two legs through the hub and the hub adds no weight. Hence the minimum
 * cost does not depend on the order in which the set of needed centers is listed, and the path
 * selected is always a hub-bouncing one.
 */
module Analysis {
  import opened Options
  import opened Catalog
  import opened Orders
  import opened Costing
  import opened Orderings
  import opened Generation
  import opened Optimizer

  lemma PickedUpSnoc(locs: seq<Loc>, x: Loc, order: Order)
    ensures PickedUp(locs + [x], order) == PickedUp(locs, order) + Pickup(x, order)
  {
    assert (locs + [x])[..|locs|] == locs;
  }

  /** A hub tour has its hubs exactly at the odd positions, so no hub-to-hub leg. */
  lemma TourNoHubPair(cs: seq<CenterId>)
    ensures NoHubPair(HubTour(cs))
  {
    TourIndices(cs);
  }

  /** Both paths pick up the same weight: the hubs of a tour add nothing. */
  lemma {:induction false} TourPicksUpAsVisit(cs: seq<CenterId>, order: Order)
    ensures PickedUp(Visit(cs), order) == PickedUp(HubTour(cs), order)
  {
    if |cs| > 0 {
      var init := cs[..|cs| - 1];
      var x := cs[|cs| - 1];
      TourPicksUpAsVisit(init, order);
      PickedUpSnoc(Visit(init), Center(x), order);
      PickedUpSnoc(HubTour(init), Center(x), order);
      PickedUpSnoc(HubTour(init) + [Center(x)], Hub, order);
      assert HubTour(cs) == HubTour(init) + [Center(x)] + [Hub];
    }
  }

  /** A direct leg between two centers costs the same as going through the hub with the same load. */
  lemma LegChargeThroughHub(a: CenterId, b: CenterId, weight: real)
    ensures LegCharge(Center(a), Center(b), weight) == LegCharge(Center(a), Hub, weight) + LegCharge(Hub, Center(b), weight)
  {
  }

  /** Paths that end at the same center, cost the same and picked up the same weight still cost
      the same after one goes on directly to center y and the other goes to y through the hub. */
  lemma ThroughHubStep(v: Path, t: Path, x: CenterId, y: CenterId, order: Order)
    requires NoHubPair(v) && NoHubPair(t) && |v| >= 1 && |t| >= 1
    requires v[|v| - 1] == Center(x) && t[|t| - 1] == Center(x)
    requires PathCost(v, order) == PathCost(t, order) && PickedUp(v, order) == PickedUp(t, order)
    ensures NoHubPair(v + [Center(y)]) && NoHubPair(t + [Hub] + [Center(y)])
    ensures PathCost(v + [Center(y)], order) == PathCost(t + [Hub] + [Center(y)], order)
  {
    var w := t + [Hub];
    var weight := PickedUp(v, order);
    PathCostSnoc(v, Center(y), order);
    PathCostSnoc(t, Hub, order);
    assert w[|w| - 1] == Hub;
    PathCostSnoc(w, Center(y), order);
    PickedUpSnoc(t, Hub, order);
    LegChargeThroughHub(x, y, weight);
  }

  /** Paths that end at the same center, cost the same and picked up the same weight still cost
      the same after both go on to the hub. */
  lemma HubStep(v: Path, t: Path, x: CenterId, order: Order)
    requires NoHubPair(v) && NoHubPair(t) && |v| >= 1 && |t| >= 1
    requires v[|v| - 1] == Center(x) && t[|t| - 1] == Center(x)
    requires PathCost(v, order) == PathCost(t, order) && PickedUp(v, order) == PickedUp(t, order)
    ensures NoHubPair(v + [Hub]) && NoHubPair(t + [Hub])
    ensures PathCost(v + [Hub], order) == PathCost(t + [Hub], order)
  {
    PathCostSnoc(v, Hub, order);
    PathCostSnoc(t, Hub, order);
  }

  /** A chain and a tour through the same centers, both extended by the center `x`, pick up the
      same weight. */
  lemma ExtendedAgree(init: seq<CenterId>, x: CenterId, order: Order)
    ensures PickedUp(Visit(init) + [Center(x)], order) == PickedUp(HubTour(init) + [Center(x)], order)
  {
    TourPicksUpAsVisit(init, order);
    PickedUpSnoc(Visit(init), Center(x), order);
    PickedUpSnoc(HubTour(init), Center(x), order);
  }

  lemma {:induction false} ChainThenCenter(cs: seq<CenterId>, y: CenterId, order: Order)
    ensures NoHubPair(Visit(cs) + [Center(y)]) && NoHubPair(HubTour(cs) + [Center(y)])
    ensures PathCost(Visit(cs) + [Center(y)], order) == PathCost(HubTour(cs) + [Center(y)], order)
  {
    if |cs| == 0 {
      assert Visit(cs) + [Center(y)] == HubTour(cs) + [Center(y)];
    } else {
      var init := cs[..|cs| - 1];
      var x := cs[|cs| - 1];
      ChainThenCenter(init, x, order);
      var v := Visit(init) + [Center(x)];
      var t := HubTour(init) + [Center(x)];
      ExtendedAgree(init, x, order);
      assert v[|v| - 1] == Center(x) && t[|t| - 1] == Center(x);
      ThroughHubStep(v, t, x, y, order);
      assert Visit(cs) == v;
      assert HubTour(cs) + [Center(y)] == t + [Hub] + [Center(y)];
    }
  }

  /** A direct chain costs exactly what the hub-bouncing path through the same centers costs. */
  lemma DirectCostsAsBounce(start: CenterId, others: seq<CenterId>, order: Order)
    ensures NoHubPair(DirectPath(start, others)) && NoHubPair(BouncePath(start, others))
    ensures PathCost(DirectPath(start, others), order) == PathCost(BouncePath(start, others), order)
  {
    var cs := [start] + others;
    var init := cs[..|cs| - 1];
    var x := cs[|cs| - 1];
    ChainThenCenter(init, x, order);
    var v := Visit(init) + [Center(x)];
    var t := HubTour(init) + [Center(x)];
    ExtendedAgree(init, x, order);
    assert v[|v| - 1] == Center(x) && t[|t| - 1] == Center(x);
    HubStep(v, t, x, order);
    assert Visit(cs) == v;
    assert HubTour(cs) == t + [Hub];
  }

  /** Two listings of the same set hold each element once, so they are orderings of each other. */
  lemma ListingsAgree(xs: seq<CenterId>, ys: seq<CenterId>, s: set<CenterId>, start: CenterId)
    requires IsListing(xs, s) && IsListing(ys, s)
    ensures multiset(Others(xs, start)) == multiset(Others(ys, start))
  {
    OthersMultiset(xs, start);
    OthersMultiset(ys, start);
    DistinctMultiset(xs);
    DistinctMultiset(ys);
    forall c ensures multiset(xs)[c] == multiset(ys)[c] {
      assert c in xs <==> c in multiset(xs);
      assert c in ys <==> c in multiset(ys);
    }
    assert multiset(xs) == multiset(ys);
  }

  lemma {:induction false} InSomeStart(needed: seq<CenterId>, starts: seq<CenterId>, p: Path)
    requires p in PathsFor(needed, starts)
    ensures exists i | 0 <= i < |starts| :: p in StartPaths(starts[i], needed)
  {
    var init := starts[..|starts| - 1];
    if p in PathsFor(needed, init) {
      InSomeStart(needed, init, p);
      var i :| 0 <= i < |init| && p in StartPaths(init[i], needed);
      assert init[i] == starts[i];
    } else {
      assert p in StartPaths(starts[|starts| - 1], needed);
    }
  }

  /** Whatever a path costs under one listing, some path costs the same under any other. */
  lemma CostMatched(xs: seq<CenterId>, ys: seq<CenterId>, s: set<CenterId>, p: Path, order: Order)
    requires IsListing(xs, s) && IsListing(ys, s)
    requires p in CandidatePaths(xs)
    ensures NoHubPair(p)
    ensures exists q | q in CandidatePaths(ys) :: NoHubPair(q) && PathCost(q, order) == PathCost(p, order)
  {
    InSomeStart(xs, Centers, p);
    var i :| 0 <= i < |Centers| && p in StartPaths(Centers[i], xs);
    var start := Centers[i];
    var ox := Others(xs, start);
    var perms := Permutations(ox);
    ListingsAgree(xs, ys, s, start);
    var ps := StartPaths(start, xs);
    var k :| 0 <= k < |ps| && ps[k] == p;
    var perm := if k < |perms| then perms[k] else ox;
    if k < |perms| {
      assert p == BouncePath(start, perm);
      PermutationsSound(ox, perm);
    } else {
      assert p == DirectPath(start, ox);
    }
    DirectCostsAsBounce(start, perm, order);
    EveryOrderingTried(start, ys, perm);
  }

  /** The minimum cost is the same whichever way the set of needed centers is listed. */
  lemma MinCostIndependentOfListing(xs: seq<CenterId>, ys: seq<CenterId>, s: set<CenterId>, order: Order)
    requires IsListing(xs, s) && IsListing(ys, s)
    ensures AllCostable(CandidatePaths(xs)) && AllCostable(CandidatePaths(ys))
    ensures Cheapest(CandidatePaths(xs), order).Some? && Cheapest(CandidatePaths(ys), order).Some?
    ensures Cheapest(CandidatePaths(xs), order).value.cost == Cheapest(CandidatePaths(ys), order).value.cost
  {
    CandidatesWellShaped(xs);
    CandidatesWellShaped(ys);
    CandidatesNonEmpty(xs);
    CandidatesNonEmpty(ys);
    MinCostBound(xs, ys, s, order);
    MinCostBound(ys, xs, s, order);
  }

  lemma MinCostBound(xs: seq<CenterId>, ys: seq<CenterId>, s: set<CenterId>, order: Order)
    requires IsListing(xs, s) && IsListing(ys, s)
    ensures AllCostable(CandidatePaths(xs)) && AllCostable(CandidatePaths(ys))
    ensures Cheapest(CandidatePaths(xs), order).Some? && Cheapest(CandidatePaths(ys), order).Some?
    ensures Cheapest(CandidatePaths(ys), order).value.cost <= Cheapest(CandidatePaths(xs), order).value.cost
  {
    var px, py := CandidatePaths(xs), CandidatePaths(ys);
    CandidatesWellShaped(xs);
    CandidatesWellShaped(ys);
    CandidatesNonEmpty(xs);
    CandidatesNonEmpty(ys);
    var bx := CheapestMember(px, order);
    CostMatched(xs, ys, s, bx.path, order);
    var q :| q in py && NoHubPair(q) && PathCost(q, order) == bx.cost;
    CheapestAtMost(py, q, order);
  }

  /** The cheapest of a non-empty list is one of its paths, at that path's cost. */
  lemma CheapestMember(paths: seq<Path>, order: Order) returns (b: Best)
    requires AllCostable(paths) && |paths| > 0
    ensures Cheapest(paths, order) == Some(b)
    ensures b.path in paths && NoHubPair(b.path) && PathCost(b.path, order) == b.cost
  {
    CheapestIsFirstMinimum(paths, order);
    b := Cheapest(paths, order).value;
  }

  /** The cheapest of a list costs at most any path in it. */
  lemma CheapestAtMost(paths: seq<Path>, q: Path, order: Order)
    requires AllCostable(paths) && q in paths && NoHubPair(q)
    ensures Cheapest(paths, order).Some? && Cheapest(paths, order).value.cost <= PathCost(q, order)
  {
    CheapestIsFirstMinimum(paths, order);
  }

  /** Hubs at exactly the odd positions: the shape of a hub-bouncing path. */
  predicate BouncesAtHub(path: Path) {
    forall k | 0 <= k < |path| :: path[k].Hub? <==> k % 2 == 1
  }

  lemma StartFirstMinimumBounces(start: CenterId, needed: seq<CenterId>, sp: seq<Path>, k: nat, order: Order)
    requires sp == StartPaths(start, needed)
    requires k < |sp| && AllCostable(sp)
    requires forall j | 0 <= j < k :: PathCost(sp[j], order) > PathCost(sp[k], order)
    ensures BouncesAtHub(sp[k])
  {
    var ox := Others(needed, start);
    var perms := Permutations(ox);
    if k < |perms| {
      assert sp[k] == BouncePath(start, perms[k]);
      TourIndices([start] + perms[k]);
    } else {
      assert sp[k] == DirectPath(start, ox);
      PermutationsComplete(ox, ox);
      var m :| 0 <= m < |perms| && perms[m] == ox;
      assert sp[m] == BouncePath(start, ox);
      DirectCostsAsBounce(start, ox, order);
      assert false;
    }
  }

  lemma {:induction false} FirstMinimumBounces(needed: seq<CenterId>, starts: seq<CenterId>, i: nat, order: Order)
    requires i < |PathsFor(needed, starts)|
    requires AllCostable(PathsFor(needed, starts))
    requires forall j | 0 <= j < i :: PathCost(PathsFor(needed, starts)[j], order) > PathCost(PathsFor(needed, starts)[i], order)
    ensures BouncesAtHub(PathsFor(needed, starts)[i])
    decreases |starts|, 1
  {
    var init := starts[..|starts| - 1];
    if i < |PathsFor(needed, init)| {
      EarlierStartBounces(needed, starts, i, order);
    } else {
      LastStartBounces(needed, starts, i, order);
    }
  }

  /** The case of `FirstMinimumBounces` where the path comes from a start before the last one. */
  lemma {:induction false} EarlierStartBounces(needed: seq<CenterId>, starts: seq<CenterId>, i: nat, order: Order)
    requires |starts| > 0 && i < |PathsFor(needed, starts[..|starts| - 1])|
    requires i < |PathsFor(needed, starts)|
    requires AllCostable(PathsFor(needed, starts))
    requires forall j | 0 <= j < i :: PathCost(PathsFor(needed, starts)[j], order) > PathCost(PathsFor(needed, starts)[i], order)
    ensures BouncesAtHub(PathsFor(needed, starts)[i])
    decreases |starts|, 0
  {
    var init := starts[..|starts| - 1];
    var base := PathsFor(needed, init);
    var sp := StartPaths(starts[|starts| - 1], needed);
    assert PathsFor(needed, starts) == base + sp;
    FirstMinimumInFront(base, sp, i, order);
    FirstMinimumBounces(needed, init, i, order);
  }

  /** The case of `FirstMinimumBounces` where the path comes from the last start. */
  lemma LastStartBounces(needed: seq<CenterId>, starts: seq<CenterId>, i: nat, order: Order)
    requires |starts| > 0 && |PathsFor(needed, starts[..|starts| - 1])| <= i < |PathsFor(needed, starts)|
    requires AllCostable(PathsFor(needed, starts))
    requires forall j | 0 <= j < i :: PathCost(PathsFor(needed, starts)[j], order) > PathCost(PathsFor(needed, starts)[i], order)
    ensures BouncesAtHub(PathsFor(needed, starts)[i])
  {
    var base := PathsFor(needed, starts[..|starts| - 1]);
    var start := starts[|starts| - 1];
    var sp := StartPaths(start, needed);
    assert PathsFor(needed, starts) == base + sp;
    FirstMinimumInBack(base, sp, i - |base|, order);
    StartFirstMinimumBounces(start, needed, sp, i - |base|, order);
  }

  /** A strict first minimum of a concatenation that lies in its front part is one of that part. */
  lemma FirstMinimumInFront(front: seq<Path>, back: seq<Path>, i: nat, order: Order)
    requires i < |front| && AllCostable(front + back)
    requires forall j | 0 <= j < i :: PathCost((front + back)[j], order) > PathCost((front + back)[i], order)
    ensures AllCostable(front) && (front + back)[i] == front[i]
    ensures forall j | 0 <= j < i :: PathCost(front[j], order) > PathCost(front[i], order)
  {
    var all := front + back;
    assert forall j | 0 <= j < |front| :: all[j] == front[j];
  }

  /** A strict first minimum of a concatenation that lies in its back part is one of that part. */
  lemma FirstMinimumInBack(front: seq<Path>, back: seq<Path>, k: nat, order: Order)
    requires k < |back| && AllCostable(front + back)
    requires forall j | 0 <= j < |front| + k :: PathCost((front + back)[j], order) > PathCost((front + back)[|front| + k], order)
    ensures AllCostable(back) && (front + back)[|front| + k] == back[k]
    ensures forall j | 0 <= j < k :: PathCost(back[j], order) > PathCost(back[k], order)
  {
    var all := front + back;
    assert forall j | 0 <= j < |back| :: all[|front| + j] == back[j];
    forall j | 0 <= j < k ensures PathCost(back[j], order) > PathCost(back[k], order) {
      assert all[|front| + j] == back[j];
    }
  }

  /** The selected path is always a hub-bouncing one: a direct chain is never strictly cheaper
      than the hub-bouncing path listed before it. */
  lemma ChosenPathBouncesAtHub(needed: seq<CenterId>, order: Order)
    requires Distinct(needed)
    ensures AllCostable(CandidatePaths(needed))
    ensures Cheapest(CandidatePaths(needed), order).Some?
    ensures BouncesAtHub(Cheapest(CandidatePaths(needed), order).value.path)
  {
    var paths := CandidatePaths(needed);
    CandidatesWellShaped(needed);
    CandidatesNonEmpty(needed);
    CheapestIsFirstMinimum(paths, order);
    var b := Cheapest(paths, order).value;
    var i :| 0 <= i < |paths| && paths[i] == b.path && PathCost(paths[i], order) == b.cost &&
      forall j | 0 <= j < i :: PathCost(paths[j], order) > b.cost;
    FirstMinimumBounces(needed, Centers, i, order);
  }
}

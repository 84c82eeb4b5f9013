/** Concrete runs of the optimiser on the catalog. */
module Examples {
  import opened Options
  import opened Catalog
  import opened Orders
  import opened Costing
  import opened Orderings
  import opened Generation
  import opened Optimizer

  lemma OnlyListingOfOne(xs: seq<CenterId>, c: CenterId)
    requires IsListing(xs, {c})
    ensures xs == [c]
  {
    assert c in xs;
    assert xs[0] in xs;
    var last := xs[|xs| - 1];
    assert last in xs;
  }

  lemma PermutationsOfOne(c: CenterId)
    ensures Permutations([c]) == [[c]]
  {
    assert RemoveAt([c], 0) == [];
    assert Permutations<CenterId>([]) == [[]];
    var pre := Prepend(c, [[]]);
    assert pre[0] == [c] + [] == [c];
    assert pre == [[c]];
    assert PermutationsFrom([c], 1) == [];
    assert PermutationsFrom([c], 0) == pre + [];
  }

  /** [a, b] without the start a, or without a center it does not hold. */
  lemma OthersOfTwo(a: CenterId, b: CenterId, start: CenterId)
    requires a != b
    ensures Others([a, b], start) == if start == a then [b] else if start == b then [a] else [a, b]
  {
    assert [a, b][..1] == [a];
    OthersOfOne(a, start);
  }

  lemma OthersOfOne(c: CenterId, start: CenterId)
    ensures Others([c], start) == if start == c then [] else [c]
  {
    assert [c][..0] == [];
    assert Others([], start) == [];
  }

  lemma TourOfTwo(a: CenterId, b: CenterId)
    ensures HubTour([a]) == [Center(a), Hub]
    ensures HubTour([a, b]) == [Center(a), Hub, Center(b), Hub]
    ensures Visit([a, b]) == [Center(a), Center(b)]
  {
    assert [a][..0] == [];
    assert [a, b][..1] == [a];
  }

  /** Two needed centers x and y, starting at x: one hub-bouncing path and one direct chain,
      whichever way the two are listed. */
  lemma TwoCentersFromFirst(x: CenterId, y: CenterId)
    requires x != y
    ensures StartPaths(x, [x, y]) == [[Center(x), Hub, Center(y), Hub], [Center(x), Center(y), Hub]]
    ensures StartPaths(x, [y, x]) == [[Center(x), Hub, Center(y), Hub], [Center(x), Center(y), Hub]]
  {
    OthersOfTwo(x, y, x);
    OthersOfTwo(y, x, x);
    assert Others([x, y], x) == [y] && Others([y, x], x) == [y];
    SingleOther(x, y);
  }

  /** The paths for start x when the other needed centers are exactly [y]. */
  lemma SingleOther(x: CenterId, y: CenterId)
    ensures BouncePaths(x, Permutations([y])) + [DirectPath(x, [y])] ==
      [[Center(x), Hub, Center(y), Hub], [Center(x), Center(y), Hub]]
  {
    PermutationsOfOne(y);
    TourOfTwo(x, y);
    assert [x] + [y] == [x, y];
    var bp := BouncePaths(x, [[y]]);
    assert |bp| == 1 && bp[0] == BouncePath(x, [y]);
    assert bp == [[Center(x), Hub, Center(y), Hub]];
    assert DirectPath(x, [y]) == [Center(x), Center(y), Hub];
  }

  /** A start that is not needed, with one needed center: a bounce through it and a direct chain. */
  lemma OneOtherCenter(start: CenterId, c: CenterId)
    requires start != c
    ensures StartPaths(start, [c]) == [[Center(start), Hub, Center(c), Hub], [Center(start), Center(c), Hub]]
  {
    OthersOfOne(c, start);
    assert Others([c], start) == [c];
    SingleOther(start, c);
  }

  /** With no needed center every start goes straight to the hub. */
  lemma NothingNeeded(start: CenterId)
    ensures StartPaths(start, []) == [[Center(start), Hub]]
  {
    TourOfTwo(start, start);
    assert [start] + [] == [start];
    assert Others([], start) == [];
    assert Permutations<CenterId>([]) == [[]];
    var bp := BouncePaths(start, [[]]);
    assert |bp| == 1 && bp[0] == BouncePath(start, []);
  }

  /** The three starts, in order. */
  lemma CandidateBlocks(needed: seq<CenterId>)
    ensures CandidatePaths(needed) == StartPaths(C1, needed) + StartPaths(C2, needed) + StartPaths(C3, needed)
  {
    assert Centers[..2] == [C1, C2];
    assert [C1, C2][..1] == [C1];
    assert [C1][..0] == [];
    assert PathsFor(needed, []) == [];
    assert PathsFor(needed, [C1]) == StartPaths(C1, needed);
    assert PathsFor(needed, [C1, C2]) == StartPaths(C1, needed) + StartPaths(C2, needed);
  }

  lemma PathCostTwo(a: Loc, b: Loc, order: Order)
    requires !(a.Hub? && b.Hub?)
    ensures NoHubPair([a, b])
    ensures PathCost([a, b], order) == LegCharge(a, b, Pickup(a, order))
  {
    assert [a, b][..1] == [a];
    assert [a][..0] == [];
    assert PickedUp([a], order) == Pickup(a, order);
    assert PathCost([a], order) == 0.0;
    PathCostUnfold([a, b], order);
  }

  lemma PathCostThree(a: Loc, b: Loc, c: Loc, order: Order)
    requires !(a.Hub? && b.Hub?) && !(b.Hub? && c.Hub?)
    ensures NoHubPair([a, b, c])
    ensures PathCost([a, b, c], order) ==
      LegCharge(a, b, Pickup(a, order)) + LegCharge(b, c, Pickup(a, order) + Pickup(b, order))
  {
    PathCostTwo(a, b, order);
    assert [a, b] + [c] == [a, b, c];
    PathCostSnoc([a, b], c, order);
    assert [a, b][..1] == [a] && [a][..0] == [];
    assert PickedUp([a], order) == Pickup(a, order);
    assert PickedUp([a, b], order) == Pickup(a, order) + Pickup(b, order);
  }

  lemma PathCostFour(a: Loc, b: Loc, c: Loc, d: Loc, order: Order)
    requires !(a.Hub? && b.Hub?) && !(b.Hub? && c.Hub?) && !(c.Hub? && d.Hub?)
    ensures NoHubPair([a, b, c, d])
    ensures PathCost([a, b, c, d], order) ==
      LegCharge(a, b, Pickup(a, order)) + LegCharge(b, c, Pickup(a, order) + Pickup(b, order)) +
      LegCharge(c, d, Pickup(a, order) + Pickup(b, order) + Pickup(c, order))
  {
    PathCostThree(a, b, c, order);
    assert [a, b, c] + [d] == [a, b, c, d];
    PathCostSnoc([a, b, c], d, order);
    assert [a, b, c][..2] == [a, b] && [a, b][..1] == [a] && [a][..0] == [];
    assert PickedUp([a], order) == Pickup(a, order);
    assert PickedUp([a, b], order) == Pickup(a, order) + Pickup(b, order);
    assert PickedUp([a, b, c], order) == Pickup(a, order) + Pickup(b, order) + Pickup(c, order);
  }

  /** A candidate list whose first path is strictly cheaper than every other selects the first. */
  lemma {:induction false} StrictlyCheapestFirst(paths: seq<Path>, order: Order)
    requires |paths| >= 1 && AllCostable(paths)
    requires forall k | 1 <= k < |paths| :: PathCost(paths[k], order) > PathCost(paths[0], order)
    ensures Cheapest(paths, order) == Some(Best(PathCost(paths[0], order), paths[0]))
  {
    var init := paths[..|paths| - 1];
    assert AllCostable(init);
    if |init| == 0 {
      assert Cheapest(init, order) == None;
    } else {
      assert init[0] == paths[0];
      assert forall k | 1 <= k < |init| :: init[k] == paths[k];
      StrictlyCheapestFirst(init, order);
    }
  }

  /** The empty mapping needs no center: each start goes straight to the hub with nothing on
      board, and the nearest start, C3, wins at 2 * 10. */
  lemma EmptyOrderExample()
    ensures NeededSet([]) == {}
    ensures CandidatePaths([]) == [[Center(C1), Hub], [Center(C2), Hub], [Center(C3), Hub]]
    ensures AllCostable(CandidatePaths([]))
    ensures Cheapest(CandidatePaths([]), []) == Some(Best(20.0, [Center(C3), Hub]))
  {
    var paths := [[Center(C1), Hub], [Center(C2), Hub], [Center(C3), Hub]];
    EmptyOrderCandidates();
    assert CandidatePaths([]) == paths;
    EmptyOrderCosts();
    var p1 := paths[..1];
    var p2 := paths[..2];
    assert p1[..0] == [] && p2[..1] == p1 && paths[..2] == p2;
    assert AllCostable(p1) && AllCostable(p2);
    assert Cheapest(p1, []) == Some(Best(40.0, [Center(C1), Hub]));
    assert Cheapest(p2, []) == Some(Best(30.0, [Center(C2), Hub]));
  }

  lemma EmptyOrderCandidates()
    ensures CandidatePaths([]) == [[Center(C1), Hub], [Center(C2), Hub], [Center(C3), Hub]]
  {
    NothingNeeded(C1);
    NothingNeeded(C2);
    NothingNeeded(C3);
    CandidateBlocks([]);
  }

  lemma EmptyOrderCosts()
    ensures PathCost([Center(C1), Hub], []) == 40.0
    ensures PathCost([Center(C2), Hub], []) == 30.0
    ensures PathCost([Center(C3), Hub], []) == 20.0
  {
    var e: Order := [];
    assert CenterLoad(C1, e) == 0.0 && CenterLoad(C2, e) == 0.0 && CenterLoad(C3, e) == 0.0;
    ShortPathCost(C1, e);
    ShortPathCost(C2, e);
    ShortPathCost(C3, e);
  }

  /** The worked example: one unit of A needs only C1; the candidates cost 40, 110, 110, 100 and
      100, so the cheapest path is C1 straight to the hub at 4 * 10 = 40. */
  lemma SingleAExample()
    ensures NeededSet([Item("A", 1)]) == {C1}
    ensures AllCostable(CandidatePaths([C1]))
    ensures Cheapest(CandidatePaths([C1]), [Item("A", 1)]) == Some(Best(40.0, [Center(C1), Hub]))
  {
    SingleANeeds();
    SingleACandidates();
    SingleACostable();
    SingleACheapest();
  }

  lemma SingleACheapest()
    ensures AllCostable([
      [Center(C1), Hub],
      [Center(C2), Hub, Center(C1), Hub], [Center(C2), Center(C1), Hub],
      [Center(C3), Hub, Center(C1), Hub], [Center(C3), Center(C1), Hub]])
    ensures Cheapest([
      [Center(C1), Hub],
      [Center(C2), Hub, Center(C1), Hub], [Center(C2), Center(C1), Hub],
      [Center(C3), Hub, Center(C1), Hub], [Center(C3), Center(C1), Hub]], [Item("A", 1)])
      == Some(Best(40.0, [Center(C1), Hub]))
  {
    var paths := [
      [Center(C1), Hub],
      [Center(C2), Hub, Center(C1), Hub], [Center(C2), Center(C1), Hub],
      [Center(C3), Hub, Center(C1), Hub], [Center(C3), Center(C1), Hub]];
    SingleACosts();
    SingleACostable();
    StrictlyCheapestFirst(paths, [Item("A", 1)]);
  }

  lemma SingleANeeds()
    ensures NeededSet([Item("A", 1)]) == {C1}
  {
    assert FirstStocker("A") == Some(C1);
  }

  lemma SingleACandidates()
    ensures CandidatePaths([C1]) == [
      [Center(C1), Hub],
      [Center(C2), Hub, Center(C1), Hub], [Center(C2), Center(C1), Hub],
      [Center(C3), Hub, Center(C1), Hub], [Center(C3), Center(C1), Hub]]
  {
    CandidateBlocks([C1]);
    var a, b, c := StartPaths(C1, [C1]), StartPaths(C2, [C1]), StartPaths(C3, [C1]);
    assert CandidatePaths([C1]) == a + b + c;
    OwnCenterOnly(C1);
    OneOtherCenter(C2, C1);
    OneOtherCenter(C3, C1);
  }

  /** A start that is the only needed center goes straight to the hub. */
  lemma OwnCenterOnly(c: CenterId)
    ensures StartPaths(c, [c]) == [[Center(c), Hub]]
  {
    OthersOfOne(c, c);
    TourOfTwo(c, c);
    assert Others([c], c) == [];
    assert Permutations<CenterId>([]) == [[]];
    var bp := BouncePaths(c, [[]]);
    assert |bp| == 1 && bp[0] == BouncePath(c, []) && [c] + [] == [c];
  }

  lemma SingleACostable()
    ensures AllCostable([
      [Center(C1), Hub],
      [Center(C2), Hub, Center(C1), Hub], [Center(C2), Center(C1), Hub],
      [Center(C3), Hub, Center(C1), Hub], [Center(C3), Center(C1), Hub]])
  {
    var order: Order := [];
    PathCostTwo(Center(C1), Hub, order);
    PathCostFour(Center(C2), Hub, Center(C1), Hub, order);
    PathCostThree(Center(C2), Center(C1), Hub, order);
    PathCostFour(Center(C3), Hub, Center(C1), Hub, order);
    PathCostThree(Center(C3), Center(C1), Hub, order);
  }

  lemma SingleALoads()
    ensures CenterLoad(C1, [Item("A", 1)]) == 3.0
    ensures CenterLoad(C2, [Item("A", 1)]) == 0.0
    ensures CenterLoad(C3, [Item("A", 1)]) == 0.0
  {
    var order := [Item("A", 1)];
    assert order[..0] == [];
  }

  /**
   * The 'distance' key of the catalog rows is looked up like a product: an order for it passes
   * the checks, needs C1 (the first row holding the key), and loads its quantity times each
   * center's distance at every center the route departs from.
   */
  lemma DistanceKeyOrder(q: int)
    requires q >= 0
    ensures ValidItem(Item("distance", q))
    ensures NeededSet([Item("distance", q)]) == {C1}
    ensures forall c: CenterId :: CenterLoad(c, [Item("distance", q)]) == q as real * Distance(c)
  {
    var order := [Item("distance", q)];
    assert "distance" in Stock(C1);
    assert order[..0] == [];
  }

  lemma SingleACosts()
    ensures PathCost([Center(C1), Hub], [Item("A", 1)]) == 40.0
    ensures PathCost([Center(C2), Hub, Center(C1), Hub], [Item("A", 1)]) == 110.0
    ensures PathCost([Center(C2), Center(C1), Hub], [Item("A", 1)]) == 110.0
    ensures PathCost([Center(C3), Hub, Center(C1), Hub], [Item("A", 1)]) == 100.0
    ensures PathCost([Center(C3), Center(C1), Hub], [Item("A", 1)]) == 100.0
  {
    var order := [Item("A", 1)];
    SingleALoads();
    PathCostTwo(Center(C1), Hub, order);
    PathCostFour(Center(C2), Hub, Center(C1), Hub, order);
    PathCostThree(Center(C2), Center(C1), Hub, order);
    PathCostFour(Center(C3), Hub, Center(C1), Hub, order);
    PathCostThree(Center(C3), Center(C1), Hub, order);
  }

  /** The handler, called with one unit of A, answers with the path C1 -> hub at 40. */
  method SingleAQuote() returns (r: Result<Best, OrderError>)
    ensures r == Ok(Best(40.0, [Center(C1), Hub]))
  {
    var order := [Item("A", 1)];
    SingleAValid();
    ghost var needed;
    r, needed := CalculateDeliveryCost(order);
    SingleAExample();
    OnlyListingOfOne(needed, C1);
  }

  lemma SingleAValid()
    ensures |[Item("A", 1)]| > 0 && ValidOrder([Item("A", 1)])
    ensures DistinctProducts([Item("A", 1)])
  {
    assert "A" in Stock(C1);
    assert ValidItem(Item("A", 1));
  }

  /** The handler refuses an empty order. */
  method EmptyQuote() returns (r: Result<Best, OrderError>)
    ensures r == Err(NoOrderData)
  {
    ghost var needed;
    r, needed := CalculateDeliveryCost([]);
  }
}

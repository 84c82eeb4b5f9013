# Delivery-route optimiser, modelled in Dafny

The service answers one HTTP request. The request body is an order: a JSON object that maps
product names to quantities. The answer is the cheapest delivery route together with its cost.

The catalog is fixed. Three supply centers, C1, C2 and C3, each stock a few products, each with
its own weight per unit. Each center lies at a fixed distance from a hub called L1.

A route starts at a center and visits the centers that hold the order. It ends at the hub. It is
costed leg by leg:
- At each center the route departs from, the weight of the ordered products that center stocks is
  loaded. Nothing is ever unloaded.
- Each leg costs its distance times a per-unit rate. The rate depends on the weight on board.
- The rate is 10 up to a weight of 5. Above that it rises by 8 per block of 5.

The optimiser first finds which center supplies each product: the first one, in catalog order,
that stocks it. It then lists candidate routes. For each start it emits two kinds of route:
- a hub-bouncing route per ordering of the other needed centers, which goes back to the hub after
  every center;
- one direct chain through the other centers, when there are any.

It costs every candidate and keeps the first one that is strictly cheaper than all before it.

All of this lives in `api/index.py`. The model covers:
- the catalog;
- the rate function;
- the costing walk;
- the candidate generator;
- the order checks;
- the selection loop.

The Dafny modules follow the program:

| module | models |
|---|---|
| `Options` | `Option` and `Result` |
| `Catalog` | the warehouse table, the hub, declared center order |
| `Tiers` | `calculate_cost_per_unit` and a ceiling reading of the tier rule |
| `Orders` | orders, order errors and the request checks |
| `Costing` | `calculate_path_cost`, as a method with a loop proved against the recursive `PathCost` |
| `Orderings` | a specification of `itertools.permutations` and its count, soundness and completeness |
| `Generation` | `generate_possible_paths`, as methods building the set and the path list, proved against `CandidatePaths` |
| `Optimizer` | the selection loop and the handler |
| `Analysis` | properties of the result that need several of the above together |
| `Examples` | the catalog's worked examples, as lemmas and two calls of the handler |

Facts the definitions establish:
- A direct chain costs exactly as much as the hub-bouncing route through the same centers in the
  same order. The code charges a center-to-center leg as the two legs through the hub, and the hub
  adds no weight.
- So the minimum cost does not depend on the order in which the set of needed centers happens to
  be listed.
- The route selected is always a hub-bouncing one.
- The catalog keeps each center's distance under the key 'distance' beside its products. Product
  lookups see that key too. An order for 'distance' passes the checks, needs C1, and loads its
  quantity times the distance at every center a leg departs from.

## Rate rule

One natural reading of the tier rule charges 8 for every started block of 5 above the first 5.
That reading is the ceiling of (w - 5) / 5, and `Tiers.CeilingRate` states it.

The code computes the blocks as `(w - 5 + 4) // 5`. The two agree on every whole-number weight
(`Tiers.CostPerUnitOnIntegers`). They disagree on fractional weights. At 5.5, for example, the
code charges 10 and the ceiling reading charges 18 (`Tiers.CostPerUnitFractional`).

The catalog's weights include 0.5, so loads such as 5.5 occur. The rest of the model follows the
code.

## Model

| member | source | states |
|---|---|---|
| Catalog.Stock | api/index.py:6-10 | every entry of a center's row is non-negative, and every row holds a positive 'distance' entry |
| Catalog.Distance | api/index.py:6-10 | a center's distance is the 'distance' entry of its row, and is positive |
| Catalog.FirstStocker | api/index.py:52-56 | the center found stocks the product, no center declared earlier does, and there is none exactly when no center stocks it |
| Tiers.CostPerUnit | api/index.py:12-18 | the rate is at least 10, and exactly 10 for weights up to 5 |
| Tiers.Increments | api/index.py:12-18 | every rate is 10 plus a whole number of increments of 8 |
| Tiers.CostPerUnitMonotone | api/index.py:12-18 | a heavier load never pays a lower rate |
| Tiers.CostPerUnitBand | api/index.py:13-18 | weights from 5n+1 up to 5n+6 pay 10 + 8n for n >= 1, and weights below 6 pay 10 |
| Tiers.CostPerUnitOnIntegers | api/index.py:16-18 | on whole-number weights the rate equals the ceiling reading 10 + 8 * ceil((w - 5) / 5) |
| Tiers.CostPerUnitFractional | api/index.py:16-18 | at weight 5.5 the code's rate is 10 while the ceiling reading gives 18 |
| Orders.CheckItems | api/index.py:87-96 | no error exactly when every item has a non-negative quantity and a stocked product; otherwise the error is the first failing item's, with the quantity checked before the product |
| Orders.Validate | api/index.py:84-96 | an empty order is refused with the no-data error; otherwise as the per-item checks, so no error exactly when the order is non-empty and valid |
| Costing.LegDistance | api/index.py:28-33 | a leg to or from the hub is the center's distance; a leg between two centers is the sum of both distances; every leg is positive |
| Costing.LegCharge | api/index.py:40-42 | a leg costs at least 10 per unit of its distance, so more than nothing |
| Costing.AddLoad | api/index.py:35-38 | the pickup at a center adds the quantity times the unit weight of every ordered product the center stocks |
| Costing.ComputePathCost | api/index.py:20-46 | the leg-by-leg walk returns `PathCost`, whose last leg carries everything picked up at all earlier locations |
| Costing.PathCostSnoc | api/index.py:25-44 | extending a route by one location adds one leg carrying everything picked up so far; the new last location adds no weight |
| Costing.ShortPathCost | api/index.py:20-46 | a one-location route costs 0; a center straight to the hub costs its distance times the rate for that center's load |
| Costing.CenterLoadNonNegative | api/index.py:35-38 | with non-negative quantities every center's load is non-negative |
| Costing.PickedUpMonotone | api/index.py:35-38 | the weight on board never decreases along a route |
| Costing.RateNonDecreasing | api/index.py:35-40 | the rate paid on a leg is never lower than on an earlier leg |
| Costing.PathCostGrows | api/index.py:40-42 | the running total never decreases: a prefix of a route costs at most the whole route |
| Costing.PathCostPositive | api/index.py:21-42 | every route costs at least 0, and a route with a leg costs more than 0 |
| Orderings.PermutationsCount | api/index.py:63-64 | there are n! orderings of n elements |
| Orderings.PermutationsSound | api/index.py:63-64 | every listed ordering holds exactly the given elements |
| Orderings.PermutationsComplete | api/index.py:63-64 | every ordering of the given elements is listed |
| Generation.NeededSetMembers | api/index.py:52-56 | a center is needed exactly when it is the first stocker of some ordered product |
| Generation.CollectNeeded | api/index.py:50-56 | the nested scan with `break` builds exactly the set of needed centers |
| Generation.ListOf | api/index.py:58 | the list holds each element of the set exactly once, in an order left open |
| Generation.OthersMultiset | api/index.py:61 | the other centers are the needed ones, each as often as in the listing, with every occurrence of the start removed |
| Generation.OthersListing | api/index.py:61 | from a list without repeats, the other centers have no repeats, are exactly the needed centers other than the start, and number one fewer when the start is needed |
| Generation.TourIndices | api/index.py:65-68 | a hub-bouncing route has the i-th center at position 2i and the hub at every odd position |
| Generation.BuildBouncePath | api/index.py:65-69 | the appending loop builds the start, then each center of the ordering followed by the hub |
| Generation.BuildDirectPath | api/index.py:71-76 | the appending loop builds the start, each other center in listed order, then the hub |
| Generation.BuildStartPaths | api/index.py:61-76 | a start emits one hub-bouncing route per listed ordering, in order, then the direct chain when there are other centers |
| Generation.GeneratePaths | api/index.py:48-78 | the generator returns `CandidatePaths` for some duplicate-free listing of the needed centers, with starts C1, C2, C3 in turn; it returns at least three routes, each costable and ending at the hub |
| Generation.CandidatesWellShaped | api/index.py:60-78 | every candidate: starts at a center, ends at the hub, has no hub-to-hub leg, repeats no center, and visits exactly its start and the needed centers |
| Generation.StartPathsCount | api/index.py:60-76 | a start emits k! + (1 if k > 0 else 0) routes, where k is the number of needed centers other than the start |
| Generation.CandidatesNonEmpty | api/index.py:60-69 | there are at least three candidates, one per start |
| Generation.EveryOrderingTried | api/index.py:63-69 | from every start, the hub-bouncing route of every ordering of the other centers is a candidate |
| Optimizer.SelectCheapest | api/index.py:100-107 | the loop returns `Cheapest` of the list |
| Optimizer.CheapestIsFirstMinimum | api/index.py:100-107 | something is selected exactly when the list is non-empty; the result costs at most every route, is a route of the list at that cost, and every earlier route costs strictly more |
| Optimizer.Optimize | api/index.py:98-107 | a route is always found; it is a candidate, its cost is its `PathCost`, no candidate is cheaper, and the result is the selection over the generated list |
| Optimizer.CalculateDeliveryCost | api/index.py:81-107 | an error exactly when the order is empty or invalid: the no-data error for an empty one, otherwise the error of the first failing item; on success the cheapest candidate for a listing of the needed centers |
| Analysis.LegChargeThroughHub | api/index.py:28-33 | a direct center-to-center leg costs what the two legs through the hub cost with the same load |
| Analysis.DirectCostsAsBounce | api/index.py:64-76 | the direct chain costs exactly what the hub-bouncing route through the same centers in the same order costs |
| Analysis.MinCostIndependentOfListing | api/index.py:58-107 | any two listings of the needed set give the same minimum cost |
| Analysis.ChosenPathBouncesAtHub | api/index.py:60-107 | the selected route has the hub at exactly its odd positions |
| Examples.SingleAExample | api/index.py:7-107 | one unit of A needs only C1; the cheapest of the five candidates is C1 straight to the hub at 40 |
| Examples.EmptyOrderExample | api/index.py:48-78 | the generator, then the selection loop at lines 100-107, run directly on an order with no products (the handler refuses it before they run): each start goes straight to the hub, and C3 wins at 20 |
| Examples.DistanceKeyOrder | api/index.py:6-10 | the 'distance' key of each row is seen by the product lookups at lines 37, 53 and 92: an order for 'distance' passes the checks, needs C1 only, and loads its quantity times each center's distance |
| Examples.SingleAQuote | api/index.py:81-109 | the handler answers an order of one A with the route C1, L1 at cost 40 |
| Examples.EmptyQuote | api/index.py:84-85 | the handler refuses an empty order with the no-data error |

## Left out

- The Flask application is not modelled: routing, `request.get_json`, `jsonify`, status codes and
  the catch-all 500 response. The handler returns a `Result` instead, and the error messages are
  an error datatype rather than text.
- Python floats are not modelled. Weights, distances and costs are exact `real`s, so rounding is
  not captured.
- The `float('inf')` start value of the selection is modelled as having no best route yet.
- The iteration order of the needed-centers set is not modelled. `ListOf` picks an arbitrary
  listing, and `GeneratePaths` returns that listing as a ghost value. Every property holds for
  every listing, and the minimum cost is proved independent of it. The route chosen is not: for
  an order of A, D and G at quantity 0, the two hub-bouncing routes from C1 both cost 140, and
  the one the listing puts first is kept.
- Orders.Validate: requires distinct product names, which JSON object keys always have.
- Quantities are integers, so non-integer JSON values are not representable. The code would refuse
  them with the quantity error. Python's acceptance of `True` and `False` as integers is not
  modelled either.
- Request bodies that are not JSON objects are not modelled.
- Location names outside the catalog cannot be written: a location is a center or the hub.
- Costing.ComputePathCost: requires a non-empty route with no hub-to-hub leg. The code fails on an
  empty route (index error) and on a hub-to-hub leg (missing key). The generator never produces
  either.
- `itertools.permutations` is replaced by the specification `Permutations`, which lists orderings
  in the library's order. It is not proved that the listed orderings are pairwise distinct. So
  "one hub-bouncing route per ordering" is stated by the count and by every ordering being
  present.

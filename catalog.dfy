/**
 * The fixed warehouse catalog of the route optimiser (api/index.py, lines 6-10): three supply
 * centers, each stocking products with a per-unit weight and lying at a distance from the hub 'L1'.
 */
module Catalog {
  import opened Options

  /** The supply centers, as keys of the `warehouses` dictionary. */
  datatype CenterId = C1 | C2 | C3

  /** A location of a path: a supply center or the hub 'L1'. */
  datatype Loc = Center(id: CenterId) | Hub

  type Product = string

  /** The declared order of the catalog, which is also the order in which starts are tried. */
  const Centers: seq<CenterId> := [C1, C2, C3]

  /** Position of a center in the declared order. */
  function Rank(c: CenterId): (k: nat)
    ensures k < |Centers| && Centers[k] == c
  {
    match c
    case C1 => 0
    case C2 => 1
    case C3 => 2
  }

  /**
   * A center's row of the catalog: each product it stocks with its per-unit weight, and beside
   * them, under the key 'distance', its distance from the hub. Lookups of a product name see the
   * 'distance' key like any product.
   */
  function Stock(c: CenterId): (m: map<Product, real>)
    ensures forall p | p in m :: m[p] >= 0.0
    ensures "distance" in m && m["distance"] > 0.0
  {
    match c
    case C1 => map["A" := 3.0, "B" := 2.0, "C" := 8.0, "distance" := 4.0]
    case C2 => map["D" := 12.0, "E" := 25.0, "F" := 15.0, "distance" := 3.0]
    case C3 => map["G" := 0.5, "H" := 1.0, "I" := 2.0, "distance" := 2.0]
  }

  /** Distance between a center and the hub: the 'distance' entry of its row. */
  function Distance(c: CenterId): (d: real)
    ensures d > 0.0 && d == Stock(c)["distance"]
  {
    Stock(c)["distance"]
  }

  /** True when some center of the catalog stocks product `p`. */
  predicate Stocked(p: Product) {
    exists c: CenterId :: p in Stock(c)
  }

  /** The first center, in declared order, that stocks `p`. */
  function FirstStocker(p: Product): (r: Option<CenterId>)
    ensures r.Some? ==> p in Stock(r.value)
    ensures r.Some? ==> forall c: CenterId :: Rank(c) < Rank(r.value) ==> p !in Stock(c)
    ensures r.None? <==> !Stocked(p)
  {
    if p in Stock(C1) then Some(C1)
    else if p in Stock(C2) then Some(C2)
    else if p in Stock(C3) then Some(C3)
    else None
  }
}

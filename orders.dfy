/**
 * Orders and the handler's order checks (api/index.py, lines 84-96). An order is the request's
 * JSON object, kept as a sequence of items in insertion order; its product names are distinct.
 */
module Orders {
  import opened Options
  import opened Catalog

  datatype Item = Item(product: Product, qty: int)

  type Order = seq<Item>

  /** Keys of a JSON object are distinct. */
  predicate DistinctProducts(order: Order) {
    forall i, j | 0 <= i < j < |order| :: order[i].product != order[j].product
  }

  /** An item passes the checks: a non-negative quantity of a product some center stocks. */
  predicate ValidItem(item: Item) {
    item.qty >= 0 && Stocked(item.product)
  }

  predicate ValidOrder(order: Order) {
    DistinctProducts(order) && forall i | 0 <= i < |order| :: ValidItem(order[i])
  }

  datatype OrderError =
    | NoOrderData
    | InvalidQuantity(product: Product)
    | ProductNotFound(product: Product)

  /** The error the checks report for an item that fails them: the quantity is checked first. */
  function ItemError(item: Item): OrderError {
    if item.qty < 0 then InvalidQuantity(item.product) else ProductNotFound(item.product)
  }

  /**
   * The per-item checks, in order: the first failing item decides the error. For each product the
   * centers are scanned until one stocks it.
   */
  method CheckItems(order: Order) returns (err: Option<OrderError>)
    ensures err.None? <==> forall i | 0 <= i < |order| :: ValidItem(order[i])
    ensures err.Some? ==> exists i | 0 <= i < |order| ::
      !ValidItem(order[i]) && err.value == ItemError(order[i]) &&
      forall j | 0 <= j < i :: ValidItem(order[j])
  {
    var i := 0;
    while i < |order|
      invariant 0 <= i <= |order|
      invariant forall j | 0 <= j < i :: ValidItem(order[j])
    {
      var product, quantity := order[i].product, order[i].qty;
      if quantity < 0 {
        return Some(InvalidQuantity(product));
      }
      var found := false;
      var k := 0;
      while k < |Centers|
        invariant 0 <= k <= |Centers|
        invariant !found
        invariant forall m | 0 <= m < k :: product !in Stock(Centers[m])
      {
        if product in Stock(Centers[k]) {
          found := true;
          break;
        }
        k := k + 1;
      }
      if !found {
        assert forall c: CenterId :: product !in Stock(c) by {
          forall c: CenterId ensures product !in Stock(c) {
            assert Centers[Rank(c)] == c;
          }
        }
        return Some(ProductNotFound(product));
      }
      i := i + 1;
    }
    return None;
  }

  /** All request checks: a missing or empty order is refused before the items are looked at. */
  method Validate(order: Order) returns (err: Option<OrderError>)
    requires DistinctProducts(order)
    ensures err.None? <==> |order| > 0 && ValidOrder(order)
    ensures |order| == 0 ==> err == Some(NoOrderData)
    ensures err.Some? && |order| > 0 ==> exists i | 0 <= i < |order| ::
      !ValidItem(order[i]) && err.value == ItemError(order[i]) &&
      forall j | 0 <= j < i :: ValidItem(order[j])
  {
    if |order| == 0 {
      return Some(NoOrderData);
    }
    err := CheckItems(order);
  }
}

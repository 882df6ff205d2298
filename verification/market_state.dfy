/** The two stores the services work on, and the failures they report. */
module MarketState {
  import opened Products
  import opened Orders

  /** Position of an order in the order store; ids are handed out in increasing order. */
  type OrderId = nat

  /** Failures: an exception a service or controller throws, or the 400 response the reserve endpoint returns for a quantity above the stock. */
  datatype Error =
    | ProductNotFound
    | OrderNotFound
    | Unauthorized
    | IllegalState
    | IllegalArgument
    | QuantityExceedsStock

  /**
   * Product store (id -> product, with the next identity value) and order
   * store (orders are never deleted, so the id of an order is its position).
   */
  datatype State = State(
    products: map<ProductId, Product>,
    nextProductId: ProductId,
    orders: seq<Order>)

  /** Every stored product id was handed out already, so a fresh id is unused. */
  predicate WellFormed(st: State) {
    forall id :: id in st.products ==> id < st.nextProductId
  }

  /** The empty market. */
  function Empty(): (st: State)
    ensures WellFormed(st) && |st.orders| == 0 && st.products == map[]
  {
    State(map[], 1, [])
  }
}

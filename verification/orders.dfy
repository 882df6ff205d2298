/** The `Orders` entity: one buyer's claim on one product. */
module Orders {
  import opened Members
  import opened Products

  /** Lifecycle of an order. `Canceled` exists but nothing ever sets it. */
  datatype OrderStatus = Reserved | Completed | Canceled

  /**
   * A reservation or sale record. The product is referenced by its id, as the
   * foreign key does; the Java constructor stores its five arguments unchanged.
   */
  datatype Order = Order(
    product: ProductId,
    buyer: MemberId,
    status: OrderStatus,
    quantity: int,
    totalPrice: int)

  /** `setCompleted`: marks the order COMPLETED and keeps every other field. */
  function SetCompleted(o: Order): (c: Order)
    ensures c.status == Completed
    ensures c.product == o.product && c.buyer == o.buyer
    ensures c.quantity == o.quantity && c.totalPrice == o.totalPrice
  {
    o.(status := Completed)
  }

  /** Completing an already completed order changes nothing. */
  lemma SetCompletedIdempotent(o: Order)
    ensures SetCompleted(SetCompleted(o)) == SetCompleted(o)
    ensures o.status == Completed ==> SetCompleted(o) == o
  {
  }
}

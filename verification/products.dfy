/** The `Product` entity and its mutators. */
module Products {
  import opened Members

  /** Database identity of a product. */
  type ProductId = nat

  datatype ProductStatus = ForSale | Reserved | SoldOut

  /**
   * A product listing. The Java constructor stores its five arguments
   * unchanged, which is what this datatype constructor does. `stock` is a
   * mathematical integer: nothing keeps it non-negative.
   */
  datatype Product = Product(
    name: string,
    price: int,
    status: ProductStatus,
    seller: MemberId,
    stock: int)

  /** `updateDetails`: overwrites name, price and stock; status and seller are kept. */
  function UpdateDetails(p: Product, name: string, price: int, stock: int): (q: Product)
    ensures q.name == name && q.price == price && q.stock == stock
    ensures q.status == p.status && q.seller == p.seller
  {
    p.(name := name, price := price, stock := stock)
  }

  /** `setStatus`: changes the status and nothing else. */
  function SetStatus(p: Product, status: ProductStatus): (q: Product)
    ensures q.status == status
    ensures q.name == p.name && q.price == p.price && q.seller == p.seller && q.stock == p.stock
  {
    p.(status := status)
  }

  /** `soldOut`: marks the listing SOLD_OUT and changes nothing else. */
  function MarkSoldOut(p: Product): (q: Product)
    ensures q.status == SoldOut
    ensures q.name == p.name && q.price == p.price && q.seller == p.seller && q.stock == p.stock
  {
    p.(status := SoldOut)
  }

  /** `minusStock`: subtracts `n` from the stock with no lower-bound check. */
  function MinusStock(p: Product, n: int): (q: Product)
    ensures q.stock + n == p.stock
    ensures q.name == p.name && q.price == p.price && q.seller == p.seller && q.status == p.status
  {
    p.(stock := p.stock - n)
  }

  /** `soldOut` is `setStatus(SOLD_OUT)`, and applying it twice is the same as once. */
  lemma SoldOutIdempotent(p: Product)
    ensures MarkSoldOut(p) == SetStatus(p, SoldOut)
    ensures MarkSoldOut(MarkSoldOut(p)) == MarkSoldOut(p)
  {
  }

  /** Subtracting `n` and then `-n` restores the product: `minusStock` loses nothing. */
  lemma MinusStockInverse(p: Product, n: int)
    ensures MinusStock(MinusStock(p, n), -n) == p
  {
  }

  /** Two successive subtractions are one subtraction of the sum. */
  lemma MinusStockAdditive(p: Product, a: int, b: int)
    ensures MinusStock(MinusStock(p, a), b) == MinusStock(p, a + b)
  {
  }

  /** With no guard, taking more than the stock leaves it negative. */
  lemma MinusStockBelowZero(p: Product, n: int)
    ensures n > p.stock ==> MinusStock(p, n).stock < 0
    ensures MinusStock(p, n).stock < 0 ==> n > p.stock
  {
  }

  /** No mutator assigns the seller: every one of them keeps it. */
  lemma MutatorsKeepSeller(p: Product, name: string, price: int, stock: int, s: ProductStatus, n: int)
    ensures UpdateDetails(p, name, price, stock).seller == p.seller
    ensures SetStatus(p, s).seller == p.seller
    ensures MarkSoldOut(p).seller == p.seller
    ensures MinusStock(p, n).seller == p.seller
  {
  }
}

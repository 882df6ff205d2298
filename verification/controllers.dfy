/**
 * The three guards the HTTP controllers add in front of the services: only a
 * SELLER may list a product (which always starts FOR_SALE), a reservation may
 * not ask for more than the stock, and approval looks the order up with
 * `findById` first.
 */
module Controllers {
  import opened Wrappers
  import opened Members
  import opened Products
  import opened MarketState
  import ProductService
  import OrderService

  /** `POST /product/add`: a SELLER lists a new FOR_SALE product of their own. */
  function AddProduct(st: State, caller: Member, name: string, price: int, stock: int): (r: Result<(State, ProductId), Error>)
    requires WellFormed(st)
    ensures r.Ok? <==> caller.role == Seller
    ensures r.Err? ==> r.error == Unauthorized
    ensures r.Ok? ==>
      var (st', id) := r.value;
      && WellFormed(st')
      && id !in st.products
      && st'.products.Keys == st.products.Keys + {id}
      && st'.products[id] == Product(name, price, ForSale, caller.id, stock)
      && (forall other :: other in st.products ==> st'.products[other] == st.products[other])
      && st'.orders == st.orders
  {
    if caller.role != Seller then Err(Unauthorized)
    else Ok(ProductService.Save(st, Product(name, price, ForSale, caller.id, stock)))
  }

  /** A listing added by a seller shows up in that seller's listings, next to the ones they had. */
  lemma AddThenFindBySeller(st: State, caller: Member, name: string, price: int, stock: int)
    requires WellFormed(st) && AddProduct(st, caller, name, price, stock).Ok?
    ensures var (st', id) := AddProduct(st, caller, name, price, stock).value;
      ProductService.FindBySeller(st', caller.id)
        == ProductService.FindBySeller(st, caller.id)[id := Product(name, price, ForSale, caller.id, stock)]
  {
  }

  /**
   * `POST /order/{id}/reserve`: an unknown product is refused, then a quantity
   * above the stock, before the service's own guards run.
   */
  function ReserveRequest(st: State, pid: ProductId, buyer: MemberId, price: int, quantity: int): (r: Result<State, Error>)
    ensures pid !in st.products ==> r == Err(ProductNotFound)
    ensures pid in st.products && st.products[pid].stock < quantity ==> r == Err(QuantityExceedsStock)
    ensures pid in st.products && quantity <= st.products[pid].stock ==>
      r == OrderService.ReserveProduct(st, pid, buyer, price, quantity)
    ensures r.Ok? ==> pid in st.products && quantity <= st.products[pid].stock
  {
    if pid !in st.products then Err(ProductNotFound)
    else if st.products[pid].stock < quantity then Err(QuantityExceedsStock)
    else OrderService.ReserveProduct(st, pid, buyer, price, quantity)
  }

  /** `POST /order/{id}/approve`: the order is looked up, then approved by the caller. */
  function ApproveRequest(st: State, oid: OrderId, seller: MemberId): (r: Result<State, Error>)
    ensures oid >= |st.orders| ==> r == Err(OrderNotFound)
    ensures oid < |st.orders| ==> r == OrderService.ApproveSale(st, oid, seller)
  {
    match OrderService.FindById(st, oid)
    case Err(e) => Err(e)
    case Ok(_) => OrderService.ApproveSale(st, oid, seller)
  }
}

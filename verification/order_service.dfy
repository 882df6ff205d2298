/** `OrderService`: reservation, sale approval and the buyer's order list. */
module OrderService {
  import opened Wrappers
  import opened Members
  import opened Products
  import opened Orders
  import opened MarketState

  /** One line of a buyer's order list. `price` is the order's total price. */
  datatype OrderResponse = OrderResponse(
    id: OrderId,
    productName: string,
    price: int,
    status: OrderStatus,
    quantity: int)

  /** `findById`: the stored order, or OrderNotFound. */
  function FindById(st: State, id: OrderId): (r: Result<Order, Error>)
    ensures r.Ok? <==> id < |st.orders|
    ensures r.Ok? ==> r.value == st.orders[id]
    ensures r.Err? ==> r.error == OrderNotFound
  {
    if id < |st.orders| then Ok(st.orders[id]) else Err(OrderNotFound)
  }

  /** The agreement test of `reserveProduct`: listed and offered price times the quantity agree. */
  predicate PriceAgrees(listed: int, offered: int, quantity: int) {
    listed * quantity == offered * quantity
  }

  /**
   * `reserveProduct`: four guards in a fixed order, the first failing one
   * deciding the error; on success one RESERVED order is appended and the
   * product is left as it was.
   */
  function ReserveProduct(st: State, pid: ProductId, buyer: MemberId, price: int, quantity: int): (r: Result<State, Error>)
    ensures pid !in st.products ==> r == Err(ProductNotFound)
    ensures pid in st.products && st.products[pid].seller == buyer ==> r == Err(Unauthorized)
    ensures (pid in st.products && st.products[pid].seller != buyer
             && st.products[pid].status != ForSale) ==> r == Err(IllegalState)
    ensures (pid in st.products && st.products[pid].seller != buyer && st.products[pid].status == ForSale
             && !PriceAgrees(st.products[pid].price, price, quantity)) ==> r == Err(IllegalArgument)
    ensures r.Ok? ==>
      && r.value.products == st.products
      && r.value.nextProductId == st.nextProductId
      && |r.value.orders| == |st.orders| + 1
      && r.value.orders[..|st.orders|] == st.orders
      && r.value.orders[|st.orders|] == Order(pid, buyer, OrderStatus.Reserved, quantity, price * quantity)
  {
    if pid !in st.products then Err(ProductNotFound)
    else
      var p := st.products[pid];
      if p.seller == buyer then Err(Unauthorized)
      else if p.status != ForSale then Err(IllegalState)
      else if !PriceAgrees(p.price, price, quantity) then Err(IllegalArgument)
      else Ok(st.(orders := st.orders + [Order(pid, buyer, OrderStatus.Reserved, quantity, price * quantity)]))
  }

  /**
   * `approveSale` on a stored order: the product must exist, belong to the
   * caller and be RESERVED. The order becomes COMPLETED; the product becomes
   * SOLD_OUT exactly when the order's quantity equals its stock; stock is
   * never decremented.
   */
  function ApproveSale(st: State, oid: OrderId, seller: MemberId): (r: Result<State, Error>)
    requires oid < |st.orders|
    ensures var pid := st.orders[oid].product;
      && (pid !in st.products ==> r == Err(ProductNotFound))
      && (pid in st.products && st.products[pid].seller != seller ==> r == Err(Unauthorized))
      && ((pid in st.products && st.products[pid].seller == seller
           && st.products[pid].status != ProductStatus.Reserved) ==> r == Err(IllegalState))
      && (r.Ok? <==> pid in st.products && st.products[pid].seller == seller
                     && st.products[pid].status == ProductStatus.Reserved)
    ensures r.Ok? ==> r.value.products.Keys == st.products.Keys
    ensures r.Ok? ==>
      var o := st.orders[oid];
      var p := st.products[o.product];
      var p' := r.value.products[o.product];
      && (forall id :: id in st.products && id != o.product ==> r.value.products[id] == st.products[id])
      && p'.name == p.name && p'.price == p.price && p'.seller == p.seller && p'.stock == p.stock
      && (p'.status == SoldOut <==> o.quantity == p.stock)
      && (o.quantity != p.stock ==> p'.status == p.status)
      && |r.value.orders| == |st.orders|
      && r.value.orders[oid] == SetCompleted(o)
      && (forall i :: 0 <= i < |st.orders| && i != oid ==> r.value.orders[i] == st.orders[i])
      && r.value.nextProductId == st.nextProductId
  {
    var o := st.orders[oid];
    if o.product !in st.products then Err(ProductNotFound)
    else
      var p := st.products[o.product];
      if p.seller != seller then Err(Unauthorized)
      else if p.status != ProductStatus.Reserved then Err(IllegalState)
      else
        var p' := if o.quantity == p.stock then MarkSoldOut(p) else p;
        Ok(st.(products := st.products[o.product := p'], orders := st.orders[oid := SetCompleted(o)]))
  }

  /**
   * The price check accepts exactly when the quantity is zero or the offered
   * unit price equals the listed one: with quantity zero any price passes.
   */
  lemma PriceAgreesIff(listed: int, offered: int, quantity: int)
    ensures PriceAgrees(listed, offered, quantity) <==> quantity == 0 || offered == listed
  {
  }

  /**
   * A reservation succeeds exactly when the product exists, is someone
   * else's, is FOR_SALE and the offered unit price is the listed one (or
   * the quantity is zero); its total is then the listed price times the quantity.
   */
  lemma ReserveSucceedsIff(st: State, pid: ProductId, buyer: MemberId, price: int, quantity: int)
    ensures ReserveProduct(st, pid, buyer, price, quantity).Ok? <==>
      && pid in st.products
      && st.products[pid].seller != buyer
      && st.products[pid].status == ForSale
      && (quantity == 0 || price == st.products[pid].price)
    ensures ReserveProduct(st, pid, buyer, price, quantity).Ok? ==>
      ReserveProduct(st, pid, buyer, price, quantity).value.orders[|st.orders|].totalPrice
        == st.products[pid].price * quantity
  {
  }

  /** A successful reservation is found under the next order id; every earlier order is found unchanged. */
  lemma ReserveThenFindById(st: State, pid: ProductId, buyer: MemberId, price: int, quantity: int)
    requires ReserveProduct(st, pid, buyer, price, quantity).Ok?
    ensures var st' := ReserveProduct(st, pid, buyer, price, quantity).value;
      && FindById(st', |st.orders|) == Ok(Order(pid, buyer, OrderStatus.Reserved, quantity, price * quantity))
      && (forall id :: id != |st.orders| ==> FindById(st', id) == FindById(st, id))
  {
  }

  /** After a successful approval, lookup finds the same order, COMPLETED. */
  lemma ApproveThenFindById(st: State, oid: OrderId, seller: MemberId)
    requires oid < |st.orders| && ApproveSale(st, oid, seller).Ok?
    ensures var st' := ApproveSale(st, oid, seller).value;
      && FindById(st', oid).Ok?
      && FindById(st', oid).value.status == Completed
      && FindById(st', oid).value == SetCompleted(FindById(st, oid).value)
  {
  }

  /** Ids of the orders placed by `buyer` among the first `n`, in increasing order. */
  function BuyerOrderIds(orders: seq<Order>, buyer: MemberId, n: nat): (ids: seq<OrderId>)
    requires n <= |orders|
    ensures forall k :: 0 <= k < |ids| ==> ids[k] < n && orders[ids[k]].buyer == buyer
    ensures forall k, l :: 0 <= k < l < |ids| ==> ids[k] < ids[l]
    ensures forall i :: 0 <= i < n && orders[i].buyer == buyer ==> i in ids
  {
    if n == 0 then []
    else
      var prefix := BuyerOrderIds(orders, buyer, n - 1);
      if orders[n - 1].buyer == buyer then prefix + [n - 1] else prefix
  }

  /** Looking at one more order adds its id exactly when it is the buyer's. */
  lemma BuyerOrderIdsStep(orders: seq<Order>, buyer: MemberId, i: nat)
    requires i < |orders|
    ensures BuyerOrderIds(orders, buyer, i + 1)
         == if orders[i].buyer == buyer then BuyerOrderIds(orders, buyer, i) + [i]
            else BuyerOrderIds(orders, buyer, i)
  {
  }

  /** Every order of `buyer` refers to a product still in the store. */
  predicate BuyerOrdersResolve(st: State, buyer: MemberId) {
    forall i :: 0 <= i < |st.orders| && st.orders[i].buyer == buyer ==> st.orders[i].product in st.products
  }

  /** The list entry for order `i`. */
  function Respond(st: State, i: OrderId): OrderResponse
    requires i < |st.orders| && st.orders[i].product in st.products
  {
    var o := st.orders[i];
    OrderResponse(i, st.products[o.product].name, o.totalPrice, o.status, o.quantity)
  }

  /** `rs` holds the responses for the buyer's orders among the first `i`, in id order. */
  predicate ListsFirst(st: State, buyer: MemberId, rs: seq<OrderResponse>, i: nat)
    requires i <= |st.orders| && BuyerOrdersResolve(st, buyer)
  {
    var ids := BuyerOrderIds(st.orders, buyer, i);
    |rs| == |ids| && forall k :: 0 <= k < |rs| ==> rs[k] == Respond(st, ids[k])
  }

  /** Looking at order `i` extends the list by its response exactly when it is the buyer's. */
  lemma ListsFirstStep(st: State, buyer: MemberId, rs: seq<OrderResponse>, i: nat)
    requires i < |st.orders| && BuyerOrdersResolve(st, buyer)
    requires ListsFirst(st, buyer, rs, i)
    ensures st.orders[i].buyer == buyer ==> ListsFirst(st, buyer, rs + [Respond(st, i)], i + 1)
    ensures st.orders[i].buyer != buyer ==> ListsFirst(st, buyer, rs, i + 1)
  {
    BuyerOrderIdsStep(st.orders, buyer, i);
  }

  /**
   * Responses built from `BuyerOrderIds` name each order of the buyer once,
   * in increasing id order, and nothing else.
   */
  lemma ListedExactlyBuyerOrders(st: State, buyer: MemberId, rs: seq<OrderResponse>)
    requires BuyerOrdersResolve(st, buyer)
    requires var ids := BuyerOrderIds(st.orders, buyer, |st.orders|);
      |rs| == |ids| && forall k :: 0 <= k < |rs| ==> rs[k] == Respond(st, ids[k])
    ensures forall k :: 0 <= k < |rs| ==>
      && rs[k].id < |st.orders|
      && st.orders[rs[k].id].buyer == buyer
      && st.orders[rs[k].id].product in st.products
      && rs[k] == Respond(st, rs[k].id)
    ensures forall k, l :: 0 <= k < l < |rs| ==> rs[k].id < rs[l].id
    ensures forall i :: 0 <= i < |st.orders| && st.orders[i].buyer == buyer ==>
      exists k :: 0 <= k < |rs| && rs[k].id == i
  {
  }

  /**
   * `getOrdersByMember`: one response per order of `buyer`, in id order, each
   * carrying that order's id, current product name, total price, status and
   * quantity.
   */
  method GetOrdersByMember(st: State, buyer: MemberId) returns (rs: seq<OrderResponse>)
    requires BuyerOrdersResolve(st, buyer)
    ensures var ids := BuyerOrderIds(st.orders, buyer, |st.orders|);
      |rs| == |ids| && forall k :: 0 <= k < |rs| ==> rs[k] == Respond(st, ids[k])
    ensures forall k :: 0 <= k < |rs| ==>
      && rs[k].id < |st.orders|
      && st.orders[rs[k].id].buyer == buyer
      && st.orders[rs[k].id].product in st.products
      && rs[k] == Respond(st, rs[k].id)
    ensures forall k, l :: 0 <= k < l < |rs| ==> rs[k].id < rs[l].id
    ensures forall i :: 0 <= i < |st.orders| && st.orders[i].buyer == buyer ==>
      exists k :: 0 <= k < |rs| && rs[k].id == i
  {
    rs := [];
    var i := 0;
    while i < |st.orders|
      invariant 0 <= i <= |st.orders|
      invariant ListsFirst(st, buyer, rs, i)
    {
      ListsFirstStep(st, buyer, rs, i);
      if st.orders[i].buyer == buyer {
        rs := rs + [Respond(st, i)];
      }
      i := i + 1;
    }
    ListedExactlyBuyerOrders(st, buyer, rs);
  }
}

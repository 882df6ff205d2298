/** `ProductService`: listing queries and ownership-gated update and delete. */
module ProductService {
  import opened Wrappers
  import opened Members
  import opened Products
  import opened MarketState

  /** The body of a PATCH request: name, price and stock always, status optionally. */
  datatype UpdateRequest = UpdateRequest(
    name: string,
    price: int,
    stock: int,
    status: Option<ProductStatus>)

  /**
   * `save`: stores the product under a fresh identity value and returns that id.
   * Every product already stored is kept as it was.
   */
  function Save(st: State, p: Product): (r: (State, ProductId))
    requires WellFormed(st)
    ensures WellFormed(r.0)
    ensures r.1 !in st.products && r.1 in r.0.products && r.0.products[r.1] == p
    ensures r.0.products.Keys == st.products.Keys + {r.1}
    ensures forall id :: id in st.products ==> r.0.products[id] == st.products[id]
    ensures r.0.orders == st.orders && r.0.nextProductId > st.nextProductId
  {
    var id := st.nextProductId;
    (st.(products := st.products[id := p], nextProductId := id + 1), id)
  }

  /** `findById`: the stored product, if there is one. */
  function FindById(st: State, id: ProductId): (r: Option<Product>)
    ensures r.Some? <==> id in st.products
    ensures r.Some? ==> r.value == st.products[id]
  {
    if id in st.products then Some(st.products[id]) else None
  }

  /** `findBySeller`: exactly the stored products whose seller is `seller`. */
  function FindBySeller(st: State, seller: MemberId): (r: map<ProductId, Product>)
    ensures forall id :: id in r <==> id in st.products && st.products[id].seller == seller
    ensures forall id :: id in r ==> r[id] == st.products[id]
  {
    map id | id in st.products && st.products[id].seller == seller :: st.products[id]
  }

  /** `findByStatus`: exactly the stored products in status `status`. */
  function FindByStatus(st: State, status: ProductStatus): (r: map<ProductId, Product>)
    ensures forall id :: id in r <==> id in st.products && st.products[id].status == status
    ensures forall id :: id in r ==> r[id] == st.products[id]
  {
    map id | id in st.products && st.products[id].status == status :: st.products[id]
  }

  /**
   * `updateProduct`: unknown id, then foreign seller, are refused; otherwise
   * name, price and stock are overwritten and the status is replaced only when
   * the request carries one.
   */
  function UpdateProduct(st: State, id: ProductId, req: UpdateRequest, caller: MemberId): (r: Result<State, Error>)
    ensures id !in st.products ==> r == Err(ProductNotFound)
    ensures id in st.products && st.products[id].seller != caller ==> r == Err(Unauthorized)
    ensures r.Ok? <==> id in st.products && st.products[id].seller == caller
    ensures r.Ok? ==>
      && r.value.products.Keys == st.products.Keys
      && r.value.products[id].name == req.name
      && r.value.products[id].price == req.price
      && r.value.products[id].stock == req.stock
      && r.value.products[id].status == req.status.GetOr(st.products[id].status)
      && r.value.products[id].seller == st.products[id].seller
      && (forall other :: other in st.products && other != id ==> r.value.products[other] == st.products[other])
      && r.value.orders == st.orders
      && r.value.nextProductId == st.nextProductId
  {
    if id !in st.products then Err(ProductNotFound)
    else
      var p := st.products[id];
      if p.seller != caller then Err(Unauthorized)
      else
        var q := UpdateDetails(p, req.name, req.price, req.stock);
        var q' := if req.status.Some? then SetStatus(q, req.status.value) else q;
        Ok(st.(products := st.products[id := q']))
  }

  /**
   * `deleteProduct`: unknown id, then foreign seller, are refused; the seller
   * removes exactly that product.
   */
  function DeleteProduct(st: State, id: ProductId, caller: MemberId): (r: Result<State, Error>)
    ensures id !in st.products ==> r == Err(ProductNotFound)
    ensures id in st.products && st.products[id].seller != caller ==> r == Err(Unauthorized)
    ensures r.Ok? <==> id in st.products && st.products[id].seller == caller
    ensures r.Ok? ==>
      && r.value.products.Keys == st.products.Keys - {id}
      && (forall other :: other in r.value.products ==> r.value.products[other] == st.products[other])
      && r.value.orders == st.orders
      && r.value.nextProductId == st.nextProductId
  {
    if id !in st.products then Err(ProductNotFound)
    else if st.products[id].seller != caller then Err(Unauthorized)
    else Ok(st.(products := st.products - {id}))
  }

  /** Repeating an update that succeeded leaves the store as the first one did. */
  lemma UpdateProductIdempotent(st: State, id: ProductId, req: UpdateRequest, caller: MemberId)
    requires UpdateProduct(st, id, req, caller).Ok?
    ensures UpdateProduct(UpdateProduct(st, id, req, caller).value, id, req, caller)
         == UpdateProduct(st, id, req, caller)
  {
    var s1 := UpdateProduct(st, id, req, caller).value;
    var s2 := UpdateProduct(s1, id, req, caller).value;
    assert s2.products[id] == s1.products[id];
    assert s2.products == s1.products;
  }

  /** An update is not a partial patch: the result does not depend on the old name, price or stock. */
  lemma UpdateProductOverwrites(st: State, id: ProductId, req: UpdateRequest, caller: MemberId, name: string, price: int, stock: int)
    requires id in st.products
    ensures var st' := st.(products := st.products[id := UpdateDetails(st.products[id], name, price, stock)]);
      UpdateProduct(st', id, req, caller) == UpdateProduct(st, id, req, caller)
  {
    var st' := st.(products := st.products[id := UpdateDetails(st.products[id], name, price, stock)]);
    if st.products[id].seller == caller {
      var a := UpdateProduct(st', id, req, caller).value;
      var b := UpdateProduct(st, id, req, caller).value;
      assert a.products[id] == b.products[id];
      assert a.products == b.products;
    }
  }

  /** A saved product is found under the id `save` returned. */
  lemma SaveThenFindById(st: State, p: Product)
    requires WellFormed(st)
    ensures FindById(Save(st, p).0, Save(st, p).1) == Some(p)
    ensures forall id :: id != Save(st, p).1 ==> FindById(Save(st, p).0, id) == FindById(st, id)
  {
  }

  /** A deleted product is gone: lookup finds nothing, and deleting or updating it again fails with ProductNotFound. */
  lemma DeleteThenNotFound(st: State, id: ProductId, caller: MemberId, other: MemberId, req: UpdateRequest)
    requires DeleteProduct(st, id, caller).Ok?
    ensures FindById(DeleteProduct(st, id, caller).value, id) == None
    ensures DeleteProduct(DeleteProduct(st, id, caller).value, id, other) == Err(ProductNotFound)
    ensures UpdateProduct(DeleteProduct(st, id, caller).value, id, req, other) == Err(ProductNotFound)
  {
  }

  /** The three status queries split the store: every product is in exactly one of them. */
  lemma FindByStatusPartitions(st: State)
    ensures FindByStatus(st, ForSale).Keys + FindByStatus(st, Reserved).Keys
          + FindByStatus(st, SoldOut).Keys == st.products.Keys
    ensures FindByStatus(st, ForSale).Keys !! FindByStatus(st, Reserved).Keys
    ensures FindByStatus(st, ForSale).Keys !! FindByStatus(st, SoldOut).Keys
    ensures FindByStatus(st, Reserved).Keys !! FindByStatus(st, SoldOut).Keys
  {
  }
}

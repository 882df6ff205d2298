/**
 * The marketplace as a state machine: every entry point is one atomic step
 * (a failed call changes nothing), and facts about whole runs of steps.
 */
module Lifecycle {
  import opened Wrappers
  import opened Members
  import opened Products
  import opened Orders
  import opened MarketState
  import ProductService
  import OrderService
  import Controllers

  /** The mutating entry points. */
  datatype Op =
    | Add(member: Member, name: string, price: int, stock: int)
    | Update(id: ProductId, req: ProductService.UpdateRequest, caller: MemberId)
    | Delete(id: ProductId, caller: MemberId)
    | Reserve(product: ProductId, buyer: MemberId, price: int, quantity: int)
    | Approve(order: OrderId, seller: MemberId)

  /** What one call returns. */
  function Outcome(st: State, op: Op): Result<State, Error>
    requires WellFormed(st)
  {
    match op
    case Add(caller, name, price, stock) =>
      (match Controllers.AddProduct(st, caller, name, price, stock)
       case Ok(r) => Ok(r.0)
       case Err(e) => Err(e))
    case Update(id, req, caller) => ProductService.UpdateProduct(st, id, req, caller)
    case Delete(id, caller) => ProductService.DeleteProduct(st, id, caller)
    case Reserve(pid, buyer, price, quantity) => Controllers.ReserveRequest(st, pid, buyer, price, quantity)
    case Approve(oid, seller) => Controllers.ApproveRequest(st, oid, seller)
  }

  /** One transaction: the new state on success, the old one on failure. */
  function Step(st: State, op: Op): (st': State)
    requires WellFormed(st)
    ensures WellFormed(st')
    ensures st'.nextProductId >= st.nextProductId
    ensures Outcome(st, op).Err? ==> st' == st
    ensures Outcome(st, op).Ok? ==> st' == Outcome(st, op).value
  {
    match Outcome(st, op)
    case Ok(s) => s
    case Err(_) => st
  }

  /** A sequence of transactions, in order. */
  function Run(st: State, ops: seq<Op>): (st': State)
    requires WellFormed(st)
    ensures WellFormed(st')
    decreases |ops|
  {
    if |ops| == 0 then st else Run(Step(st, ops[0]), ops[1..])
  }

  /** Product `pid`, if stored, is not RESERVED. */
  predicate NotReserved(st: State, pid: ProductId) {
    pid in st.products ==> st.products[pid].status != ProductStatus.Reserved
  }

  /** A request to edit product `pid` into RESERVED, whoever sends it and whether or not it is accepted. */
  predicate EditsToReserved(op: Op, pid: ProductId) {
    op.Update? && op.id == pid && op.req.status == Some(ProductStatus.Reserved)
  }

  /** No request in the run that edits `pid` into RESERVED is accepted; refused ones change nothing. */
  predicate NoSuccessfulReservedEdit(st: State, ops: seq<Op>, pid: ProductId)
    requires WellFormed(st)
    decreases |ops|
  {
    |ops| == 0 ||
      ((EditsToReserved(ops[0], pid) ==> Outcome(st, ops[0]).Err?)
       && NoSuccessfulReservedEdit(Step(st, ops[0]), ops[1..], pid))
  }

  /** Only calls that reserve or approve: the order flow alone. */
  predicate IsOrderOp(op: Op) {
    op.Reserve? || op.Approve?
  }

  /** How one order may evolve: everything but the status is fixed, and the status stays or becomes COMPLETED. */
  predicate Evolves(o: Order, o': Order) {
    && o'.product == o.product && o'.buyer == o.buyer
    && o'.quantity == o.quantity && o'.totalPrice == o.totalPrice
    && (o'.status == o.status || o'.status == Completed)
  }

  /** Approval only ever succeeds on a stored order whose product is stored and RESERVED. */
  lemma ApproveNeedsReserved(st: State, oid: OrderId, seller: MemberId)
    ensures Controllers.ApproveRequest(st, oid, seller).Ok? ==>
      && oid < |st.orders|
      && st.orders[oid].product in st.products
      && st.products[st.orders[oid].product].status == ProductStatus.Reserved
    ensures oid < |st.orders| && NotReserved(st, st.orders[oid].product)
            && st.orders[oid].product in st.products
            && st.products[st.orders[oid].product].seller == seller ==>
      Controllers.ApproveRequest(st, oid, seller) == Err(IllegalState)
  {
  }

  /**
   * A step that is not an accepted edit of `pid` into RESERVED keeps `pid`
   * out of RESERVED, whatever happens to other products.
   */
  lemma StepKeepsNotReserved(st: State, op: Op, pid: ProductId)
    requires WellFormed(st) && NotReserved(st, pid)
    requires !EditsToReserved(op, pid) || Outcome(st, op).Err?
    ensures NotReserved(Step(st, op), pid)
  {
  }

  /**
   * A product that is not RESERVED, and whose every request to be edited
   * into RESERVED is refused, stays out of RESERVED over any run, whatever
   * is done to other products.
   */
  lemma {:induction false} RunKeepsNotReserved(st: State, ops: seq<Op>, pid: ProductId)
    requires WellFormed(st) && NotReserved(st, pid)
    requires NoSuccessfulReservedEdit(st, ops, pid)
    ensures NotReserved(Run(st, ops), pid)
    decreases |ops|
  {
    if |ops| > 0 {
      StepKeepsNotReserved(st, ops[0], pid);
      RunKeepsNotReserved(Step(st, ops[0]), ops[1..], pid);
    }
  }

  /**
   * Reservation never sets RESERVED and approval requires it: after any run
   * in which no edit of product `pid` into RESERVED is accepted (refused
   * requests and edits of other products are allowed), no order for `pid`
   * can be approved, and the refusal is IllegalState once the product is
   * stored and the caller is its seller.
   */
  lemma ApprovalUnreachable(st: State, ops: seq<Op>, pid: ProductId, oid: OrderId, seller: MemberId)
    requires WellFormed(st) && NotReserved(st, pid)
    requires NoSuccessfulReservedEdit(st, ops, pid)
    ensures var s := Run(st, ops);
      && NotReserved(s, pid)
      && (oid < |s.orders| && s.orders[oid].product == pid ==>
            Controllers.ApproveRequest(s, oid, seller).Err?)
      && (oid < |s.orders| && s.orders[oid].product == pid && pid in s.products
          && s.products[pid].seller == seller ==>
            Controllers.ApproveRequest(s, oid, seller) == Err(IllegalState))
  {
    RunKeepsNotReserved(st, ops, pid);
    ApproveNeedsReserved(Run(st, ops), oid, seller);
  }

  /** One step appends orders only, never changes a recorded order beyond completing it, and creates RESERVED orders. */
  lemma StepOrders(st: State, op: Op)
    requires WellFormed(st)
    ensures var st' := Step(st, op);
      && |st'.orders| >= |st.orders|
      && (forall i :: 0 <= i < |st.orders| ==> Evolves(st.orders[i], st'.orders[i]))
      && (forall i :: |st.orders| <= i < |st'.orders| ==> st'.orders[i].status == OrderStatus.Reserved)
  {
  }

  /**
   * Over any run, orders are only appended; a recorded order keeps its
   * product, buyer, quantity and total price, and its status either stays or
   * becomes COMPLETED; orders created during the run are never CANCELED.
   */
  lemma {:induction false} RunOrders(st: State, ops: seq<Op>)
    requires WellFormed(st)
    ensures var st' := Run(st, ops);
      && |st'.orders| >= |st.orders|
      && (forall i :: 0 <= i < |st.orders| ==> Evolves(st.orders[i], st'.orders[i]))
      && (forall i :: |st.orders| <= i < |st'.orders| ==> st'.orders[i].status != Canceled)
    decreases |ops|
  {
    if |ops| > 0 {
      var s1 := Step(st, ops[0]);
      StepOrders(st, ops[0]);
      RunOrders(s1, ops[1..]);
      var st' := Run(st, ops);
      forall i | |st.orders| <= i < |st'.orders|
        ensures st'.orders[i].status != Canceled
      {
        if i < |s1.orders| {
          assert Evolves(s1.orders[i], st'.orders[i]);
        }
      }
    }
  }

  /** No run cancels anything: a market without CANCELED orders never gets one. */
  lemma NeverCanceled(st: State, ops: seq<Op>)
    requires WellFormed(st)
    requires forall i :: 0 <= i < |st.orders| ==> st.orders[i].status != Canceled
    ensures var st' := Run(st, ops);
      forall i :: 0 <= i < |st'.orders| ==> st'.orders[i].status != Canceled
  {
    RunOrders(st, ops);
    var st' := Run(st, ops);
    forall i | 0 <= i < |st'.orders|
      ensures st'.orders[i].status != Canceled
    {
      if i < |st.orders| {
        assert Evolves(st.orders[i], st'.orders[i]);
      }
    }
  }

  /** One step keeps the seller of a product that survives it, and never revives an id already handed out. */
  lemma StepKeepsSeller(st: State, op: Op, id: ProductId)
    requires WellFormed(st) && id < st.nextProductId
    ensures var st' := Step(st, op);
      id in st'.products ==> id in st.products && st'.products[id].seller == st.products[id].seller
  {
  }

  /**
   * A product's seller is fixed for its whole life: if a product id handed
   * out before a run is present after it, it was present before and has the
   * same seller.
   */
  lemma {:induction false} RunKeepsSeller(st: State, ops: seq<Op>, id: ProductId)
    requires WellFormed(st) && id < st.nextProductId
    ensures var st' := Run(st, ops);
      id in st'.products ==> id in st.products && st'.products[id].seller == st.products[id].seller
    decreases |ops|
  {
    if |ops| > 0 {
      StepKeepsSeller(st, ops[0], id);
      RunKeepsSeller(Step(st, ops[0]), ops[1..], id);
    }
  }

  /** A product as the order flow may leave it: unchanged, or marked SOLD_OUT. */
  predicate SameOrSoldOut(p: Product, p': Product) {
    p' == p || p' == MarkSoldOut(p)
  }

  /**
   * The order flow alone never decrements stock and never edits a product:
   * after any run of reservations and approvals the same products exist, each
   * unchanged or marked SOLD_OUT.
   */
  lemma {:induction false} OrderFlowKeepsStock(st: State, ops: seq<Op>)
    requires WellFormed(st)
    requires forall i :: 0 <= i < |ops| ==> IsOrderOp(ops[i])
    ensures var st' := Run(st, ops);
      && st'.products.Keys == st.products.Keys
      && forall id :: id in st.products ==> SameOrSoldOut(st.products[id], st'.products[id])
    decreases |ops|
  {
    if |ops| > 0 {
      var s1 := Step(st, ops[0]);
      OrderFlowKeepsStock(s1, ops[1..]);
      var st' := Run(st, ops);
      forall id | id in st.products
        ensures SameOrSoldOut(st.products[id], st'.products[id])
      {
        SoldOutIdempotent(st.products[id]);
      }
    }
  }

  /**
   * A seller's edit into RESERVED is what makes approval possible: list, have
   * it reserved, edit it to RESERVED, approve. The order completes and the
   * product sells out with its stock untouched.
   */
  lemma ManualReservedEnablesApproval()
    ensures var seller := Member(1, Seller);
      var s1 := Step(Empty(), Add(seller, "lamp", 100, 1));
      var s2 := Step(s1, Reserve(1, 2, 100, 1));
      var s3 := Step(s2, Update(1, ProductService.UpdateRequest("lamp", 100, 1, Some(ProductStatus.Reserved)), 1));
      var s4 := Step(s3, Approve(0, 1));
      && Outcome(s1, Reserve(1, 2, 100, 1)).Ok?
      && Outcome(s2, Approve(0, 1)) == Err(IllegalState)
      && Outcome(s3, Approve(0, 1)).Ok?
      && s4.orders[0] == Order(1, 2, Completed, 1, 100)
      && s4.products[1] == Product("lamp", 100, SoldOut, 1, 1)
  {
  }

  /**
   * A refused request does not unlock approval: the buyer asks to edit the
   * seller's product into RESERVED, is refused as Unauthorized, and the
   * seller's approval still fails with IllegalState.
   */
  lemma RefusedReservedEditKeepsApprovalBlocked()
    ensures var s1 := Step(Empty(), Add(Member(1, Seller), "lamp", 100, 1));
      var s2 := Step(s1, Reserve(1, 2, 100, 1));
      var edit := Update(1, ProductService.UpdateRequest("lamp", 100, 1, Some(ProductStatus.Reserved)), 2);
      && Outcome(s2, edit) == Err(Unauthorized)
      && NoSuccessfulReservedEdit(s1, [Reserve(1, 2, 100, 1), edit], 1)
      && Outcome(Step(s2, edit), Approve(0, 1)) == Err(IllegalState)
  {
  }
}

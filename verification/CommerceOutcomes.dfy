/** What each commerce transaction promises its caller: when it is accepted, why it is refused, and what it
    leaves, table by table. The laws over runs say nothing of who may do what; this module does. */
module CommerceOutcomes {
  import opened Prelude
  import opened Contracts
  import opened Pricing
  import opened Commerce
  import opened CommerceReplica
  import opened CommerceStock
  import opened CommerceMoney
  import opened CommerceOrders
  import opened CommerceCart
  import opened CommerceCheckout

  // ----- wallets -----

  /** What a run asked to be paid in for `u`. */
  function PaidIn(u: UserId): Op -> int { (op: Op) => if op.DoTopUp? && op.user == u then op.amount else 0 }

  lemma OtherStepsTopUpNothing(db: Db, op: Op, u: UserId)
    requires !op.DoTopUp?
    ensures Sum(Step(db, op).ledger, TopUpFor(u)) == Sum(db.ledger, TopUpFor(u))
  {
    hide Checkout, ReturnOrder, Consume, SetStock, AddItem, SetQuantity, ProcessOrder, TakeJob, CompleteJob;
    if Attempt(db, op).Ok? {
      match op
      case DoCheckout(buyer, req) => CheckoutTopsUpNothing(db, buyer, req, u);
      case DoReturnOrder(o) => ReturnTopsUpNothing(db, o, u);
      case DoSetStock(seller, p, units) => SetStockFrame(db, seller, p, units);
      case DoConsume(e) => ConsumeFrame(db, e);
      case DoOpenWallet(_) =>
      case _ =>
        if JobOp(op) {
          JobFrame(db, op);
        } else if CartOp(op) {
          CartFrame(db, op);
        } else {
          CodeFrame(db, op);
        }
    }
  }

  lemma CheckoutTopsUpNothing(db: Db, buyer: UserId, req: Request, u: UserId)
    requires Checkout(db, buyer, req).Ok?
    ensures Sum(Checkout(db, buyer, req).value.ledger, TopUpFor(u)) == Sum(db.ledger, TopUpFor(u))
  {
    hide Reserve, Sorted, Joined, Priced, Discounted, Subtotal, CalculateTotals, UseVoucher;
    var d := Checkout(db, buyer, req).value;
    SumAppend(db.ledger, Entry(buyer, 0 - d.orders[|db.orders|].total, PaymentEntry), TopUpFor(u));
  }

  lemma ReturnTopsUpNothing(db: Db, o: OrderId, u: UserId)
    requires ReturnOrder(db, o).Ok?
    ensures Sum(ReturnOrder(db, o).value.ledger, TopUpFor(u)) == Sum(db.ledger, TopUpFor(u))
  {
    SumAppend(db.ledger, Entry(db.orders[o].buyer, db.orders[o].total, RefundEntry(o)), TopUpFor(u));
  }

  lemma StepPaysIn(db: Db, op: Op, u: UserId)
    ensures Sum(Step(db, op).ledger, TopUpFor(u)) == Sum(db.ledger, TopUpFor(u)) + PaidIn(u)(op)
  {
    if op.DoTopUp? {
      SumAppend(db.ledger, Entry(op.user, op.amount, TopUpEntry), TopUpFor(u));
    } else {
      hide Step;
      OtherStepsTopUpNothing(db, op, u);
    }
  }

  lemma {:induction false} TopUpsAreAsked(ops: seq<Op>, u: UserId)
    ensures Sum(Run(EMPTY, ops).ledger, TopUpFor(u)) == Sum(ops, PaidIn(u))
  {
    hide Step, PaidIn, TopUpFor;
    if ops != [] {
      TopUpsAreAsked(ops[..|ops| - 1], u);
      StepPaysIn(Run(EMPTY, ops[..|ops| - 1]), ops[|ops| - 1], u);
    }
  }

  /** Over every run, all a buyer asked to pay in is the balance now plus the totals of the orders placed
      and not returned. */
  lemma DepositsAreKept(ops: seq<Op>, u: UserId)
    ensures
      var d := Run(EMPTY, ops);
      Sum(ops, PaidIn(u)) == (if u in d.wallets then d.wallets[u] else 0) + Sum(d.orders, SpentBy(u))
  {
    TopUpsAreAsked(ops, u);
    MoneyConserved(ops);
    assert BuyerConserved(Run(EMPTY, ops), u);
  }

  // ----- stock -----

  /** The stock of a product that has arrived is set by the seller of its store and by nobody else; before
      that anybody's wish is kept, the last one only. */
  lemma SetStockIff(db: Db, seller: UserId, p: ProductId, units: nat)
    ensures
      var r := Attempt(db, DoSetStock(seller, p, units));
      if p in db.products && db.products[p].store in db.stores then
        var deleted, owner := db.products[p].deleted, db.stores[db.products[p].store].seller;
        && (r.Ok? <==> !deleted && owner == seller)
        && (deleted ==> r == Err(NotFound))
        && (!deleted && owner != seller ==> r == Err(Forbidden))
        && (r.Ok? ==>
              var version := if p in db.inventory then db.inventory[p].version + 1 else 1;
              r.value == db.(inventory := db.inventory[p := Stock(units, version)],
                             outbox := db.outbox + [InventoryChanged(p, units, version)]))
      else r == Ok(db.(pending := db.pending[p := PendingStock(seller, units)]))
  {
  }

  // ----- carts -----

  /** Nothing but the buyer's cart moves. */
  ghost predicate OnlyCart(db: Db, d: Db, buyer: UserId) {
    && d == db.(carts := d.carts)
    && d.carts.Keys == db.carts.Keys + {buyer}
    && forall u :: u in db.carts && u != buyer ==> d.carts[u] == db.carts[u]
  }

  lemma InCartMeans(db: Db, buyer: UserId, p: ProductId, home: ProductId -> StoreId)
    requires Replica(db, home)
    ensures var items, at := CartOf(db, buyer).items, FindItem(CartOf(db, buyer).items, p);
      && InCart(db, buyer, p) == (if at.Some? then items[at.value].quantity else 0)
      && (at.Some? ==> InCart(db, buyer, p) >= 1 && p in db.inventory)
  {
    CartOfOk(db, buyer, home);
    hide Replica, Sum;
    var items, at := CartOf(db, buyer).items, FindItem(CartOf(db, buyer).items, p);
    if at.Some? {
      OrderedIsRow(items, at.value);
    } else {
      NotOrdered(items, p);
    }
  }

  /** A product goes into the cart if and only if a positive number is asked for, the replica is in step, it
      is stocked, the cart is of its store or of none, and the stock covers what is then in the cart. */
  lemma AddItemIff(db: Db, buyer: UserId, p: ProductId, quantity: int, synced: bool, home: ProductId -> StoreId)
    requires Replica(db, home)
    ensures
      var r := Attempt(db, DoAddItem(buyer, p, quantity, synced));
      var elsewhere := buyer in db.carts && db.carts[buyer].store.Some? && db.carts[buyer].store != Some(home(p));
      && (r.Ok? <==>
            && quantity > 0 && synced && p in db.inventory && !elsewhere
            && InCart(db, buyer, p) + quantity <= db.inventory[p].units)
      && (r.Ok? ==> OnlyCart(db, r.value, buyer))
      && (r == Err(NotFound) <==> quantity > 0 && synced && p !in db.inventory)
      && (r == Err(Conflict) <==>
            quantity > 0 && (!synced || (p in db.inventory && quantity <= db.inventory[p].units && elsewhere)))
      && (r.Err? ==> r.error in {NotFound, Conflict, Invalid})
  {
    AttemptAdd(db, buyer, p, quantity, synced);
    InCartMeans(db, buyer, p, home);
    assert p in db.inventory <==> Live(db, p);
    assert p in db.products ==> db.products[p].store == home(p);
    hide Replica, InCart, Attempt, OnlyCart;
    if AddItem(db, buyer, p, quantity, synced).Ok? {
      AddTouchesOnlyCart(db, buyer, p, quantity, synced);
    }
  }

  lemma AddTouchesOnlyCart(db: Db, buyer: UserId, p: ProductId, quantity: int, synced: bool)
    requires AddItem(db, buyer, p, quantity, synced).Ok?
    ensures OnlyCart(db, AddItem(db, buyer, p, quantity, synced).value, buyer)
  {
  }

  lemma AttemptAdd(db: Db, buyer: UserId, p: ProductId, quantity: int, synced: bool)
    ensures Attempt(db, DoAddItem(buyer, p, quantity, synced)) == AddItem(db, buyer, p, quantity, synced)
  {
    hide AddItem;
  }

  /** The quantity of a product in the cart can be set to any positive number its stock covers. */
  lemma SetQuantityIff(db: Db, buyer: UserId, p: ProductId, quantity: int, home: ProductId -> StoreId)
    requires Replica(db, home)
    ensures
      var r := Attempt(db, DoSetQuantity(buyer, p, quantity));
      && (r.Ok? <==> quantity > 0 && InCart(db, buyer, p) > 0 && p in db.inventory && quantity <= db.inventory[p].units)
      && (r.Ok? ==> OnlyCart(db, r.value, buyer) && r.value.carts[buyer].store == Some(home(p)))
      && (r.Err? ==> r.error == if quantity > 0 && InCart(db, buyer, p) == 0 then NotFound else Invalid)
  {
    InCartMeans(db, buyer, p, home);
    CartOfOk(db, buyer, home);
    assert p in db.inventory <==> Live(db, p);
    hide Replica, InCart;
  }

  /** What is in the cart can be removed, and the cart keeps its store exactly as long as something is left. */
  lemma RemoveItemIff(db: Db, buyer: UserId, p: ProductId, home: ProductId -> StoreId)
    requires Replica(db, home)
    ensures
      var r := Attempt(db, DoRemoveItem(buyer, p));
      && (r.Ok? <==> InCart(db, buyer, p) > 0)
      && (r.Err? ==> r.error == NotFound)
      && (r.Ok? ==>
            && OnlyCart(db, r.value, buyer) && buyer in db.carts
            && r.value.carts[buyer].store == if r.value.carts[buyer].items == [] then None else db.carts[buyer].store)
  {
    InCartMeans(db, buyer, p, home);
    hide Replica, InCart;
  }

  /** A cart is opened empty; one without items is left without a store; any other is left as it is. */
  lemma OpenCartLeaves(db: Db, buyer: UserId)
    ensures
      var r := Attempt(db, DoOpenCart(buyer));
      && r.Ok? && OnlyCart(db, r.value, buyer)
      && r.value.carts[buyer] ==
           if buyer in db.carts && db.carts[buyer].items != [] then db.carts[buyer] else Cart(None, [])
  {
  }

  lemma ClearCartLeaves(db: Db, buyer: UserId)
    ensures
      var r := Attempt(db, DoClearCart(buyer));
      r == Ok(if buyer in db.carts then db.(carts := db.carts[buyer := Cart(None, [])]) else db)
  {
  }

  // ----- checkout -----

  function ValueIn(db: Db): CartItem -> int {
    (i: CartItem) => if i.product in db.products then db.products[i.product].price * i.quantity else 0
  }

  lemma {:induction false} SubtotalIsValue(db: Db, items: seq<CartItem>)
    requires forall i :: 0 <= i < |items| ==> items[i].product in db.products
    ensures Subtotal(Priced(db, items)) == Sum(items, ValueIn(db))
  {
    if items != [] {
      var init := items[..|items| - 1];
      SubtotalIsValue(db, init);
      assert Priced(db, items)[..|items| - 1] == Priced(db, init);
    }
  }

  /** One line for each item, at the price and under the name of now. */
  ghost predicate LinesOf(db: Db, items: seq<CartItem>, lines: seq<Line>) {
    && |lines| == |items|
    && forall i :: 0 <= i < |items| ==>
         && items[i].product in db.products
         && var ref := db.products[items[i].product];
         lines[i] == Line(Some(items[i].product), ref.name, ref.price, items[i].quantity)
  }

  /** No code, no discount; otherwise what the code grants on that subtotal. */
  ghost predicate DiscountOf(db: Db, req: Request, s: Summary) {
    if req.code.None? || req.code.value == "" then s.discountAmount == 0 && s.discountCode.None? && s.discountType.None?
    else
      var d := ValidateCode(db.vouchers, db.promos, req.code.value, s.subtotal, req.now, req.pick);
      && d.Ok? && s.discountAmount == d.value.amount && s.discountCode == Some(d.value.code)
      && s.discountType == if d.value.kind.FromVoucher? then Some(VoucherCode) else Some(PromoCode)
  }

  ghost predicate Bill(db: Db, items: seq<CartItem>, req: Request, s: Summary) {
    && LinesOf(db, items, s.lines)
    && s.subtotal == Sum(items, ValueIn(db))
    && DiscountOf(db, req, s)
    && s.totals == CalculateTotals(s.subtotal, req.delivery, req.fees, s.discountAmount)
  }

  /** The code given is refused on that subtotal, and this is what the buyer is told. */
  ghost predicate CodeRefused(db: Db, req: Request, subtotal: int, error: Error) {
    && req.code.Some? && req.code.value != "" && subtotal >= 0
    && var code := ValidateCode(db.vouchers, db.promos, req.code.value, subtotal, req.now, req.pick);
    code.Err? && error == if code.error == UnknownCode then NotFound else Invalid
  }

  lemma CartLines(db: Db, buyer: UserId, home: ProductId -> StoreId)
    requires Replica(db, home)
    ensures
      var items := CartOf(db, buyer).items;
      && Joined(db, items) == items && LinesOf(db, items, Priced(db, items))
      && Subtotal(Priced(db, items)) == Sum(items, ValueIn(db))
  {
    var items := CartOf(db, buyer).items;
    WholeCartJoins(db, buyer, home);
    CartOfOk(db, buyer, home);
    forall i | 0 <= i < |items| ensures items[i].product in db.products {
      assert items[i].product in db.inventory <==> Live(db, items[i].product);
    }
    hide Replica;
    SubtotalIsValue(db, items);
  }

  function SummaryOf(lines: seq<Line>, subtotal: nat, discount: Option<Discount>, totals: Totals): Summary {
    Summary(lines, subtotal, AmountOff(discount),
            if discount.Some? then Some(discount.value.code) else None,
            if discount.None? then None else if discount.value.kind.FromVoucher? then Some(VoucherCode) else Some(PromoCode),
            totals)
  }

  lemma DiscountedIs(db: Db, req: Request, lines: seq<Line>, subtotal: nat, totals: Totals)
    ensures
      var r := Discounted(db, req.code, subtotal, req.now, req.pick);
      && (r.Err? ==> CodeRefused(db, req, subtotal, r.error))
      && (r.Ok? ==> DiscountOf(db, req, SummaryOf(lines, subtotal, r.value, totals)))
      && (CodeRefused(db, req, subtotal, Invalid) || CodeRefused(db, req, subtotal, NotFound) ==> r.Err?)
  {
    hide ValidateCode;
  }

  lemma PreviewOpens(db: Db, buyer: UserId, req: Request)
    ensures
      var items := CartOf(db, buyer).items;
      var lines := Priced(db, Joined(db, items));
      Preview(db, buyer, req) ==
        if lines == [] then Ok(Summary([], 0, 0, None, None, Totals(0, 0, 0, 0)))
        else
          var discount := Discounted(db, req.code, Subtotal(lines), req.now, req.pick);
          if discount.Err? then Err(discount.error)
          else
            Ok(SummaryOf(lines, Subtotal(lines), discount.value,
                         CalculateTotals(Subtotal(lines), req.delivery, req.fees, AmountOff(discount.value))))
  {
    var viewed := OpenCart(db, buyer);
    JoinedReadsRefs(db, viewed, CartOf(db, buyer).items);
    JoinedReadsRefs(db, viewed, Joined(db, CartOf(db, buyer).items));
    hide Discounted, CalculateTotals, Subtotal;
    SameCode(db, viewed, req, Subtotal(Priced(db, Joined(db, CartOf(db, buyer).items))));
  }

  /** The preview of a cart is its bill, unless the code is refused; an empty cart shows nothing but zeros,
      whatever the code. */
  lemma PreviewIsBill(db: Db, buyer: UserId, req: Request, home: ProductId -> StoreId)
    requires Replica(db, home)
    ensures
      var items, r := CartOf(db, buyer).items, Preview(db, buyer, req);
      if items == [] then r == Ok(Summary([], 0, 0, None, None, Totals(0, 0, 0, 0)))
      else
        && (r.Ok? ==> Bill(db, items, req, r.value))
        && (r.Err? ==> CodeRefused(db, req, Sum(items, ValueIn(db)), r.error))
  {
    CartLines(db, buyer, home);
    PreviewOpens(db, buyer, req);
    assert |Priced(db, CartOf(db, buyer).items)| == |CartOf(db, buyer).items|;
    hide Replica, Preview, Sum, Joined, Subtotal, CalculateTotals, LinesOf, Priced, CartOf, ValueIn;
    hide Discounted, DiscountOf, CodeRefused;
    var lines := Priced(db, CartOf(db, buyer).items);
    var discount := Discounted(db, req.code, Subtotal(lines), req.now, req.pick);
    var totals := if discount.Err? then Totals(0, 0, 0, 0)
                  else CalculateTotals(Subtotal(lines), req.delivery, req.fees, AmountOff(discount.value));
    DiscountedIs(db, req, lines, Subtotal(lines), totals);
  }

  function InWallet(db: Db, u: UserId): int { if u in db.wallets then db.wallets[u] else 0 }

  /** The stock covers every item. */
  ghost predicate Covered(db: Db, items: seq<CartItem>) {
    forall i :: 0 <= i < |items| ==>
      items[i].product in db.inventory && db.inventory[items[i].product].units >= items[i].quantity
  }

  lemma CoveredIsEnough(db: Db, items: seq<CartItem>)
    ensures Covered(db, items) <==> AllEnough(db.inventory, items)
  {
    assert forall i :: 0 <= i < |items| ==> items[i] in items;
    if Covered(db, items) {
      forall x | x in items ensures Enough(db.inventory, x) {
        var i :| 0 <= i < |items| && items[i] == x;
      }
    }
  }

  lemma AttemptCheckout(db: Db, buyer: UserId, req: Request)
    ensures Attempt(db, DoCheckout(buyer, req)) == Checkout(db, buyer, req)
    ensures Checkout(db, buyer, req).Ok? ==> Step(db, DoCheckout(buyer, req)) == Checkout(db, buyer, req).value
  {
    hide Checkout;
  }

  ghost predicate Affordable(db: Db, buyer: UserId, req: Request) {
    var items, shown := CartOf(db, buyer).items, Preview(db, buyer, req);
    && req.addressFound && items != [] && shown.Ok?
    && InWallet(db, buyer) >= shown.value.totals.total && Covered(db, items)
  }

  lemma CanCheckoutIff(db: Db, buyer: UserId, req: Request)
    requires Joined(db, CartOf(db, buyer).items) == CartOf(db, buyer).items
    ensures CanCheckout(db, buyer, req) <==> Affordable(db, buyer, req)
    ensures CanCheckout(db, buyer, req) ==> CartOf(db, buyer).items != []
  {
    PreviewOpens(db, buyer, req);
    CoveredIsEnough(db, CartOf(db, buyer).items);
    assert |Priced(db, CartOf(db, buyer).items)| == |CartOf(db, buyer).items|;
    hide Preview, Joined, Discounted, Subtotal, CalculateTotals, Covered, AllEnough, CartOf, Priced;
  }

  lemma CheckoutRefuses(db: Db, buyer: UserId, req: Request)
    requires Checkout(db, buyer, req).Err?
    requires Joined(db, CartOf(db, buyer).items) == CartOf(db, buyer).items
    requires CartOf(db, buyer).items != [] ==> CartOf(db, buyer).store.Some?
    ensures
      var r, shown := Checkout(db, buyer, req), Preview(db, buyer, req);
      r.error == if !req.addressFound then NotFound
                 else if CartOf(db, buyer).items != [] && shown.Err? then shown.error else Invalid
  {
    PreviewOpens(db, buyer, req);
    assert |Priced(db, CartOf(db, buyer).items)| == |CartOf(db, buyer).items|;
    hide Preview, Discounted, CalculateTotals, Reserve, Sorted, Subtotal, Placed, NewOrder, CartOf, Joined, Priced;
  }

  /** A checkout goes through if and only if the address is the buyer's, the cart is not empty, the code is
      not refused, the wallet holds what the preview shows and the stock covers every item. */
  lemma CheckoutAccepted(db: Db, buyer: UserId, req: Request, home: ProductId -> StoreId)
    requires Replica(db, home)
    ensures
      var r, items, shown := Attempt(db, DoCheckout(buyer, req)), CartOf(db, buyer).items, Preview(db, buyer, req);
      && (r.Ok? <==>
            && req.addressFound && items != [] && shown.Ok?
            && InWallet(db, buyer) >= shown.value.totals.total && Covered(db, items))
      && (r.Err? ==>
            r.error == if !req.addressFound then NotFound else if items != [] && shown.Err? then shown.error else Invalid)
  {
    hide *;
    AttemptCheckout(db, buyer, req);
    WholeCartJoins(db, buyer, home);
    CheckoutIff(db, buyer, req, home);
    CanCheckoutIff(db, buyer, req);
    AffordableMeans(db, buyer, req);
    if Checkout(db, buyer, req).Err? {
      CheckoutRefuses(db, buyer, req);
    }
  }

  lemma AffordableMeans(db: Db, buyer: UserId, req: Request)
    ensures
      var items, shown := CartOf(db, buyer).items, Preview(db, buyer, req);
      Affordable(db, buyer, req) <==>
        && req.addressFound && items != [] && shown.Ok?
        && InWallet(db, buyer) >= shown.value.totals.total && Covered(db, items)
  {
    hide Preview, Covered, CartOf, InWallet;
  }

  /** What a buyer was shown, as an order just placed. */
  function OrderOf(buyer: UserId, store: StoreId, req: Request, shown: Summary): Order {
    Order(
      buyer := buyer, store := store, delivery := req.delivery,
      subtotal := shown.subtotal, discountAmount := shown.discountAmount,
      discountCode := shown.discountCode, discountType := shown.discountType,
      fee := shown.totals.deliveryFee, ppn := shown.totals.ppn, total := shown.totals.total,
      status := SedangDikemas, createdAt := req.now,
      lines := shown.lines, history := [SedangDikemas])
  }

  lemma NewOrderIsShown(
    buyer: UserId, store: StoreId, req: Request, lines: seq<Line>, discount: Option<Discount>, totals: Totals)
    ensures NewOrder(buyer, store, req, lines, discount, totals)
      == OrderOf(buyer, store, req, SummaryOf(lines, Subtotal(lines), discount, totals))
  {
    hide Subtotal;
  }

  /** One usage of the voucher the code named, if it named one. */
  ghost predicate VoucherSpent(db: Db, d: Db, req: Request, shown: Summary) {
    if shown.discountType == Some(VoucherCode) then
      && req.code.Some?
      && exists i: nat :: NamesVoucher(db.vouchers, req.code.value, i) && shown.discountCode == Some(db.vouchers[i].code)
           && d.vouchers == db.vouchers[i := db.vouchers[i].(remaining := db.vouchers[i].remaining - 1)]
    else d.vouchers == db.vouchers
  }

  lemma SpendsVoucher(
    db: Db, d: Db, req: Request, lines: seq<Line>, subtotal: nat, discount: Option<Discount>, totals: Totals)
    requires Discounted(db, req.code, subtotal, req.now, req.pick) == Ok(discount)
    requires d.vouchers == UseVoucher(db.vouchers, discount)
    ensures VoucherSpent(db, d, req, SummaryOf(lines, subtotal, discount, totals))
  {
    if discount.Some? && discount.value.kind.FromVoucher? {
      var i, code := discount.value.kind.row, req.code.value;
      CodeAppliesIff(db.vouchers, db.promos, code, subtotal, req.now, i);
      DiscountIsLargestAllowed(db.vouchers, db.promos, code, subtotal, req.now, req.pick, 0);
      hide ValidateCode, NamesVoucher, Grants;
      var r := ValidateCode(db.vouchers, db.promos, code, subtotal, req.now, req.pick);
      assert r.Ok? && r.value.kind == FromVoucher(i);
      assert NamesVoucher(db.vouchers, code, i);
    }
  }

  /** Every product in the cart loses what was in the cart and gains a version; no other stock moves. */
  ghost predicate StockTaken(db: Db, d: Db, buyer: UserId) {
    && d.inventory.Keys == db.inventory.Keys
    && forall p :: p in db.inventory ==>
         d.inventory[p] == if InCart(db, buyer, p) == 0 then db.inventory[p]
                           else Stock(db.inventory[p].units - InCart(db, buyer, p), db.inventory[p].version + 1)
  }

  lemma TakenIsInCart(db: Db, d: Db, buyer: UserId, home: ProductId -> StoreId)
    requires Replica(db, home) && PointwiseTaken(db.inventory, d.inventory, CartOf(db, buyer).items)
    ensures StockTaken(db, d, buyer)
  {
    var items := CartOf(db, buyer).items;
    forall p | p in db.inventory
      ensures d.inventory[p] == if InCart(db, buyer, p) == 0 then db.inventory[p]
                                else Stock(db.inventory[p].units - InCart(db, buyer, p), db.inventory[p].version + 1)
    {
      InCartMeans(db, buyer, p, home);
      hide Replica, InCart, CartOf;
      var at := FindItem(items, p);
      if at.Some? {
        assert items[at.value] in items;
      }
    }
  }

  /** The parts of an order as the service computes them from the cart. */
  datatype Parts = Parts(lines: seq<Line>, discount: Option<Discount>, totals: Totals)

  ghost predicate PartsOf(db: Db, buyer: UserId, req: Request, x: Parts) {
    && x.lines == Priced(db, CartOf(db, buyer).items)
    && Discounted(db, req.code, Subtotal(x.lines), req.now, req.pick) == Ok(x.discount)
    && x.totals == CalculateTotals(Subtotal(x.lines), req.delivery, req.fees, AmountOff(x.discount))
  }

  lemma OneShotParts(db: Db, d: Db, buyer: UserId, req: Request) returns (x: Parts)
    requires OneShot(db, d, buyer, req)
    ensures PartsOf(db, buyer, req, x) && CartOf(db, buyer).store.Some?
    ensures PointwiseTaken(db.inventory, d.inventory, CartOf(db, buyer).items)
    ensures d == db.(
      inventory := d.inventory, outbox := d.outbox,
      wallets := db.wallets[buyer := InWallet(db, buyer) - x.totals.total],
      ledger := db.ledger + [Entry(buyer, 0 - x.totals.total, PaymentEntry)],
      vouchers := UseVoucher(db.vouchers, x.discount),
      orders := db.orders + [NewOrder(buyer, CartOf(db, buyer).store.value, req, x.lines, x.discount, x.totals)],
      carts := db.carts[buyer := Cart(None, [])])
  {
    hide Priced, Discounted, Subtotal, CalculateTotals, PointwiseTaken, Sorted, Announcements, UseVoucher, NewOrder, CartOf;
    var lines := Priced(db, CartOf(db, buyer).items);
    var discount := Discounted(db, req.code, Subtotal(lines), req.now, req.pick).value;
    x := Parts(lines, discount, CalculateTotals(Subtotal(lines), req.delivery, req.fees, AmountOff(discount)));
  }

  lemma PreviewParts(db: Db, buyer: UserId, req: Request, x: Parts)
    requires PartsOf(db, buyer, req, x) && CartOf(db, buyer).items != []
    requires Joined(db, CartOf(db, buyer).items) == CartOf(db, buyer).items
    ensures Preview(db, buyer, req) == Ok(SummaryOf(x.lines, Subtotal(x.lines), x.discount, x.totals))
  {
    PreviewOpens(db, buyer, req);
    assert |Priced(db, CartOf(db, buyer).items)| == |CartOf(db, buyer).items|;
    hide Preview, Priced, Discounted, Subtotal, CalculateTotals, CartOf, Joined, SummaryOf;
  }

  /** And then the order is what the preview showed, the wallet and the ledger move by its total, the voucher
      loses one usage, the stock loses what was in the cart, the cart is empty, and nothing else changes. */
  lemma CheckoutLeaves(db: Db, buyer: UserId, req: Request, home: ProductId -> StoreId)
    requires Replica(db, home) && Checkout(db, buyer, req).Ok?
    ensures
      var d, cart, r := Step(db, DoCheckout(buyer, req)), CartOf(db, buyer), Preview(db, buyer, req);
      && cart.store.Some? && r.Ok? && Bill(db, cart.items, req, r.value)
      && var shown := r.value;
      && d.orders == db.orders + [OrderOf(buyer, cart.store.value, req, shown)]
      && d.wallets == db.wallets[buyer := InWallet(db, buyer) - shown.totals.total]
      && d.ledger == db.ledger + [Entry(buyer, 0 - shown.totals.total, PaymentEntry)]
      && VoucherSpent(db, d, req, shown) && StockTaken(db, d, buyer)
      && d.carts == db.carts[buyer := Cart(None, [])]
      && d.stores == db.stores && d.products == db.products && d.pending == db.pending
      && d.jobs == db.jobs && d.promos == db.promos
  {
    hide *;
    var cart, d := CartOf(db, buyer), Checkout(db, buyer, req).value;
    AttemptCheckout(db, buyer, req);
    CheckoutIsOneShot(db, buyer, req, home);
    WholeCartJoins(db, buyer, home);
    CanCheckoutIff(db, buyer, req);
    var x := OneShotParts(db, d, buyer, req);
    TakenIsInCart(db, d, buyer, home);
    PreviewParts(db, buyer, req, x);
    PreviewIsBill(db, buyer, req, home);
    SpendsParts(db, d, buyer, req, x);
    NewOrderIsShown(buyer, cart.store.value, req, x.lines, x.discount, x.totals);
    TotalShown(x.lines, Subtotal(x.lines), x.discount, x.totals);
  }

  lemma TotalShown(lines: seq<Line>, subtotal: nat, discount: Option<Discount>, totals: Totals)
    ensures SummaryOf(lines, subtotal, discount, totals).totals == totals
  {
  }

  lemma SpendsParts(db: Db, d: Db, buyer: UserId, req: Request, x: Parts)
    requires PartsOf(db, buyer, req, x) && d.vouchers == UseVoucher(db.vouchers, x.discount)
    ensures VoucherSpent(db, d, req, SummaryOf(x.lines, Subtotal(x.lines), x.discount, x.totals))
  {
    hide Discounted, Subtotal, CalculateTotals, VoucherSpent, SummaryOf;
    SpendsVoucher(db, d, req, x.lines, Subtotal(x.lines), x.discount, x.totals);
  }

  // ----- the life of an order -----

  /** The order moved one status on, and so did its history. */
  predicate MovedTo(db: Db, d: Db, o: OrderId, status: Status) {
    && o < |db.orders|
    && d.orders == db.orders[o := db.orders[o].(status := status, history := db.orders[o].history + [status])]
  }

  /** An order is handed over for delivery by the seller of its store, once, while it is being packed. */
  lemma ProcessOrderIff(db: Db, seller: UserId, o: OrderId, home: ProductId -> StoreId)
    requires OrdersOk(db, home)
    ensures
      var r := Attempt(db, DoProcessOrder(seller, o));
      var theirs := o < |db.orders| && db.orders[o].store in db.stores && db.stores[db.orders[o].store].seller == seller;
      && (r.Ok? <==> theirs && db.orders[o].status == SedangDikemas)
      && (r.Err? ==> r.error == if theirs then Conflict else NotFound)
      && (r.Ok? ==>
            && MovedTo(db, r.value, o, MenungguPengirim)
            && r.value == db.(orders := r.value.orders, jobs := db.jobs[o := Job(None, Pending, db.orders[o].fee)]))
  {
    if o < |db.orders| {
      assert OrderOk(db, o, home);
    }
  }

  /** A driver gets a job if and only if nobody took it and its order still waits. */
  lemma TakeJobIff(db: Db, o: OrderId, driver: UserId, home: ProductId -> StoreId)
    requires OrdersOk(db, home)
    ensures
      var r := Attempt(db, DoTakeJob(o, driver));
      && (r.Ok? <==> o < |db.orders| && db.orders[o].status == MenungguPengirim)
      && (r.Err? ==> r.error == Conflict)
      && (r.Ok? ==>
            && MovedTo(db, r.value, o, SedangDikirim)
            && r.value == db.(orders := r.value.orders, jobs := db.jobs[o := Job(Some(driver), Taken, db.orders[o].fee)]))
  {
    if o < |db.orders| {
      assert OrderOk(db, o, home);
    }
  }

  ghost predicate AnnouncesCompletion(e: CommerceEvent, o: OrderId, order: Order) {
    && e.OrderCompleted? && e.order == o && e.buyer == order.buyer && |e.items| == |order.lines|
    && forall i :: 0 <= i < |e.items| ==> e.items[i] == SoldItem(order.lines[i].product, order.lines[i].quantity)
  }

  /** A job is completed by the driver who has it and nobody else, while its order is on its way; the buyer,
      the products and the quantities are announced with it. */
  lemma CompleteJobIff(db: Db, o: OrderId, driver: UserId, home: ProductId -> StoreId)
    requires OrdersOk(db, home)
    ensures
      var r := Attempt(db, DoCompleteJob(o, driver));
      && (r.Ok? <==> o in db.jobs && db.jobs[o].driver == Some(driver) && db.orders[o].status == SedangDikirim)
      && (r.Err? ==> r.error == Conflict)
      && (r.Ok? ==>
            && MovedTo(db, r.value, o, PesananSelesai)
            && r.value == db.(orders := r.value.orders, outbox := r.value.outbox,
                              jobs := db.jobs[o := Job(Some(driver), Completed, db.orders[o].fee)])
            && |r.value.outbox| == |db.outbox| + 1 && db.outbox <= r.value.outbox
            && AnnouncesCompletion(r.value.outbox[|db.outbox|], o, db.orders[o]))
  {
    if o < |db.orders| {
      assert OrderOk(db, o, home);
    }
  }

  /** Each stocked product gets its units of the order back. */
  ghost predicate StockReturned(db: Db, d: Db, lines: seq<Line>) {
    && d.inventory.Keys == db.inventory.Keys
    && forall p :: p in db.inventory ==> d.inventory[p].units == db.inventory[p].units + Units(lines, p)
  }

  lemma {:induction false} RestockGivesBack(shelf: Shelf, lines: seq<Line>, p: ProductId)
    ensures Restock(shelf, lines).inventory.Keys == shelf.inventory.Keys
    ensures p in shelf.inventory ==>
      Restock(shelf, lines).inventory[p].units == shelf.inventory[p].units + Units(lines, p)
  {
    if lines != [] {
      RestockGivesBack(shelf, lines[..|lines| - 1], p);
    }
  }

  /** An order is returned if and only if it is neither completed nor returned; the buyer gets the whole total
      back, with its entry, and every product still stocked its units. */
  lemma ReturnOrderIff(db: Db, o: OrderId)
    ensures
      var r := Attempt(db, DoReturnOrder(o));
      && (r.Ok? <==> o < |db.orders| && db.orders[o].status != PesananSelesai && db.orders[o].status != Dikembalikan)
      && (r.Err? ==> r.error == Skipped)
      && (r.Ok? ==>
            var d, order := r.value, db.orders[o];
            && MovedTo(db, d, o, Dikembalikan) && StockReturned(db, d, order.lines)
            && d == db.(
                 orders := d.orders, inventory := d.inventory, outbox := d.outbox,
                 wallets := db.wallets[order.buyer := InWallet(db, order.buyer) + order.total],
                 ledger := db.ledger + [Entry(order.buyer, order.total, RefundEntry(o))]))
  {
    hide Restock, Units;
    if o < |db.orders| {
      var lines := db.orders[o].lines;
      RestockGivesBack(ShelfOf(db), lines, 0);
      forall p | p in db.inventory
        ensures p in Restock(ShelfOf(db), lines).inventory
        ensures Restock(ShelfOf(db), lines).inventory[p].units == db.inventory[p].units + Units(lines, p)
      {
        RestockGivesBack(ShelfOf(db), lines, p);
      }
    }
  }

  // ----- replicas -----

  /** A store event is applied unless it is old news; only another store of the same seller stands in its way. */
  lemma StoreEventIff(db: Db, s: StoreId, seller: UserId, name: string, slug: string, version: nat)
    ensures
      var r := Attempt(db, DoConsume(StoreUpserted(s, seller, name, slug, version)));
      var newer := s in db.stores ==> db.stores[s].version < version;
      && (r.Err? <==> newer && exists t :: t in db.stores && t != s && db.stores[t].seller == seller)
      && (r.Err? ==> r.error == Retry)
      && (r.Ok? ==>
            r.value == if newer then db.(stores := db.stores[s := StoreRef(seller, name, slug, version)]) else db)
  {
  }

  /** A product event is applied unless it is old news; it waits for its store. A tombstone stays one. A live
      product is stocked from then on, with what the owner of its store had set before it came. */
  lemma ProductEventIff(db: Db, p: ProductId, store: StoreId, f: ProductFields, version: nat)
    ensures
      var r := Attempt(db, DoConsume(ProductUpserted(p, store, f, version)));
      var newer, deleted := p in db.products ==> db.products[p].version < version, p in db.products && db.products[p].deleted;
      && (r.Err? <==> newer && store !in db.stores)
      && (r.Err? ==> r.error == Retry)
      && (r.Ok? && !newer ==> r.value == db)
      && (r.Ok? && newer ==>
            && r.value.products == db.products[p := ProductRef(store, f.name, f.slug, f.price, f.imageKey, deleted, version)]
            && r.value == db.(products := r.value.products, inventory := r.value.inventory,
                              pending := r.value.pending, outbox := r.value.outbox)
            && (deleted ==> r.value == db.(products := r.value.products))
            && (!deleted ==> r.value.pending == db.pending - {p} && Stocked(db, r.value, p, store)))
  {
  }

  /** What the owner had set is the stock now and announced; without that an unstocked product starts at none. */
  predicate Stocked(db: Db, d: Db, p: ProductId, store: StoreId) {
    if p in db.pending && store in db.stores && db.stores[store].seller == db.pending[p].seller then
      var units, version := db.pending[p].units, if p in db.inventory then db.inventory[p].version + 1 else 1;
      && d.inventory == db.inventory[p := Stock(units, version)]
      && d.outbox == db.outbox + [InventoryChanged(p, units, version)]
    else
      && d.inventory == (if p in db.inventory then db.inventory else db.inventory[p := Stock(0, 0)])
      && d.outbox == db.outbox
  }

  /** The items of every cart but those of `p`. */
  ghost predicate Swept(db: Db, d: Db, p: ProductId) {
    && d.carts.Keys == db.carts.Keys
    && forall u :: u in db.carts ==>
         && d.carts[u].store == db.carts[u].store
         && forall x :: x in d.carts[u].items <==> x in db.carts[u].items && x.product != p
  }

  /** A deletion turns the row of a product into a tombstone and takes the product out of stock and out of
      every cart, unless it is old news or the product was never seen. */
  lemma DeletionEventLeaves(db: Db, p: ProductId, version: nat)
    ensures
      var r := Attempt(db, DoConsume(ProductDeleted(p, version)));
      && r.Ok?
      && if p in db.products && db.products[p].version < version then
           && r.value == db.(
                products := db.products[p := db.products[p].(deleted := true, version := version)],
                inventory := db.inventory - {p}, pending := db.pending - {p}, carts := r.value.carts)
           && Swept(db, r.value, p)
         else r.value == db
  {
    forall u | u in db.carts ensures forall x :: x in DropItem(db.carts[u].items, p) <==> x in db.carts[u].items && x.product != p {
      DropItemKeeps(db.carts[u].items, p);
    }
    hide DropItem;
  }

  // ----- codes -----

  /** A code is issued once: a second voucher, or a second promo, of exactly that code is refused. */
  lemma CodesAreIssuedOnce(db: Db, v: Voucher, p: Promo)
    ensures
      var r, taken := Attempt(db, DoCreateVoucher(v)), exists i :: 0 <= i < |db.vouchers| && db.vouchers[i].code == v.code;
      r == if taken then Err(Conflict) else Ok(db.(vouchers := db.vouchers + [v]))
    ensures
      var r, taken := Attempt(db, DoCreatePromo(p)), exists i :: 0 <= i < |db.promos| && db.promos[i].code == p.code;
      r == if taken then Err(Conflict) else Ok(db.(promos := db.promos + [p]))
  {
  }
}

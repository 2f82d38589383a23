/** Stock: each product's announced history is exactly its versions, and units are conserved. */
module CommerceStock {
  import opened Prelude
  import opened Contracts
  import opened Pricing
  import opened Commerce
  import opened CommerceReplica

  /** The (units, version) pairs announced for `p`, oldest first. */
  function History(outbox: seq<CommerceEvent>, p: ProductId): seq<Stock> {
    if outbox == [] then []
    else
      var init := History(outbox[..|outbox| - 1], p);
      match outbox[|outbox| - 1]
      case InventoryChanged(q, units, version) => if q == p then init + [Stock(units, version)] else init
      case OrderCompleted(_, _, _) => init
  }

  lemma HistoryAppend(outbox: seq<CommerceEvent>, e: CommerceEvent, p: ProductId)
    ensures History(outbox + [e], p) ==
      if e.InventoryChanged? && e.product == p then History(outbox, p) + [Stock(e.stock, e.version)]
      else History(outbox, p)
  {
    assert (outbox + [e])[..|outbox|] == outbox;
  }

  /** Versions are announced 1, 2, 3, ... with no gap or repeat, and the row is the last one. */
  ghost predicate ShelfOk(shelf: Shelf, p: ProductId) {
    var h := History(shelf.outbox, p);
    && (forall k :: 0 <= k < |h| ==> h[k].version == k + 1 && h[k].units >= 0)
    && (p in shelf.inventory ==>
          && shelf.inventory[p] == (if h == [] then Stock(0, 0) else h[|h| - 1]))
  }

  ghost predicate ShelvesOk(shelf: Shelf) { forall p :: ShelfOk(shelf, p) }

  ghost predicate StockOk(db: Db) {
    && ShelvesOk(ShelfOf(db))
    && forall p :: p !in db.products ==> History(db.outbox, p) == []
  }

  // ----- the writers -----

  lemma PutKeepsShelves(shelf: Shelf, p: ProductId, units: int)
    requires ShelvesOk(shelf) && units >= 0
    requires p in shelf.inventory || History(shelf.outbox, p) == []
    ensures ShelvesOk(Put(shelf, p, units))
    ensures forall q :: q != p ==> History(Put(shelf, p, units).outbox, q) == History(shelf.outbox, q)
  {
    var after := Put(shelf, p, units);
    var e := after.outbox[|shelf.outbox|];
    forall q ensures ShelfOk(after, q) && (q != p ==> History(after.outbox, q) == History(shelf.outbox, q)) {
      assert ShelfOk(shelf, q);
      HistoryAppend(shelf.outbox, e, q);
    }
  }

  function QuantityOf(p: ProductId): CartItem -> int {
    (i: CartItem) => if i.product == p then i.quantity else 0
  }

  function LineUnits(p: ProductId): Line -> int {
    (l: Line) => if l.product == Some(p) then l.quantity else 0
  }

  function Ordered(items: seq<CartItem>, p: ProductId): int { Sum(items, QuantityOf(p)) }

  function Units(lines: seq<Line>, p: ProductId): int { Sum(lines, LineUnits(p)) }

  function UnitsIn(shelf: Shelf, p: ProductId): int {
    if p in shelf.inventory then shelf.inventory[p].units else 0
  }

  lemma {:induction false} ReserveTakes(shelf: Shelf, items: seq<CartItem>, p: ProductId)
    requires ShelvesOk(shelf) && Reserve(shelf, items).Some?
    ensures ShelvesOk(Reserve(shelf, items).value)
    ensures p in shelf.inventory ==> UnitsIn(Reserve(shelf, items).value, p) == UnitsIn(shelf, p) - Ordered(items, p)
    ensures p !in shelf.inventory ==> History(Reserve(shelf, items).value.outbox, p) == History(shelf.outbox, p)
  {
    hide ShelvesOk, History;
    ReserveKeys(shelf, items);
    if items != [] {
      var init, last := items[..|items| - 1], items[|items| - 1];
      ReserveTakes(shelf, init, p);
      ReserveKeys(shelf, init);
      var before := Reserve(shelf, init).value;
      PutKeepsShelves(before, last.product, before.inventory[last.product].units - last.quantity);
    }
  }

  lemma StockedUnits(shelf: Shelf, p: ProductId)
    requires ShelvesOk(shelf) && p in shelf.inventory
    ensures shelf.inventory[p].units >= 0
  {
    assert ShelfOk(shelf, p);
  }

  lemma {:induction false} RestockReturns(shelf: Shelf, lines: seq<Line>, p: ProductId)
    requires ShelvesOk(shelf)
    ensures ShelvesOk(Restock(shelf, lines))
    ensures p in shelf.inventory ==> UnitsIn(Restock(shelf, lines), p) == UnitsIn(shelf, p) + Units(lines, p)
    ensures p !in shelf.inventory ==> History(Restock(shelf, lines).outbox, p) == History(shelf.outbox, p)
  {
    hide ShelvesOk, History;
    RestockKeys(shelf, lines);
    if lines != [] {
      var init, last := lines[..|lines| - 1], lines[|lines| - 1];
      RestockReturns(shelf, init, p);
      RestockKeys(shelf, init);
      var before := Restock(shelf, init);
      if last.product.Some? && last.product.value in before.inventory {
        var q := last.product.value;
        StockedUnits(before, q);
        PutKeepsShelves(before, q, before.inventory[q].units + last.quantity);
      }
    }
  }

  // ----- cart items and the order lines priced from them -----

  lemma {:induction false} InsertOrdered(items: seq<CartItem>, item: CartItem, p: ProductId)
    ensures Ordered(Insert(items, item), p) == Ordered(items + [item], p)
  {
    SumAppend(items, item, QuantityOf(p));
    if items != [] && items[|items| - 1].product > item.product {
      var init, last := items[..|items| - 1], items[|items| - 1];
      InsertOrdered(init, item, p);
      SumAppend(init, item, QuantityOf(p));
      SumAppend(Insert(init, item), last, QuantityOf(p));
    }
  }

  lemma {:induction false} SortedOrdered(items: seq<CartItem>, p: ProductId)
    ensures Ordered(Sorted(items), p) == Ordered(items, p)
  {
    hide Insert, Sum;
    if items != [] {
      var init, last := items[..|items| - 1], items[|items| - 1];
      SortedOrdered(init, p);
      InsertOrdered(Sorted(init), last, p);
      SumAppend(Sorted(init), last, QuantityOf(p));
      SumAppend(init, last, QuantityOf(p));
      assert items == init + [last];
    }
  }

  lemma {:induction false} PricedUnits(db: Db, items: seq<CartItem>, p: ProductId)
    ensures Units(Priced(db, items), p) == Ordered(items, p)
  {
    if items != [] {
      var init := items[..|items| - 1];
      PricedUnits(db, init, p);
      assert Priced(db, items)[..|items| - 1] == Priced(db, init);
    }
  }

  // ----- conservation -----

  function OutstandingUnits(p: ProductId): Order -> int {
    (o: Order) => if o.status != Dikembalikan then Units(o.lines, p) else 0
  }

  /** Units on the shelf plus units in orders that were not returned. */
  function Held(db: Db, p: ProductId): int {
    UnitsIn(ShelfOf(db), p) + Sum(db.orders, OutstandingUnits(p))
  }

  /** How much one operation lets a seller change what is held of `p`. */
  function Adjustment(db: Db, op: Op, p: ProductId): int {
    if op.DoSetStock? && op.product == p && Live(db, p) && SetStock(db, op.seller, p, op.units).Ok?
    then op.units - UnitsIn(ShelfOf(db), p)
    else 0
  }

  lemma CheckoutConserves(db: Db, buyer: UserId, req: Request, p: ProductId)
    requires StockOk(db) && Checkout(db, buyer, req).Ok?
    ensures ShelvesOk(ShelfOf(Checkout(db, buyer, req).value))
    ensures p in db.inventory ==> Held(Checkout(db, buyer, req).value, p) == Held(db, p)
    ensures p !in db.inventory ==> History(Checkout(db, buyer, req).value.outbox, p) == History(db.outbox, p)
  {
    var d := Checkout(db, buyer, req).value;
    var items := Joined(db, CartOf(db, buyer).items);
    ReserveKeys(ShelfOf(db), Sorted(items));
    ReserveTakes(ShelfOf(db), Sorted(items), p);
    SortedOrdered(items, p);
    PricedUnits(db, items, p);
    SumAppend(db.orders, d.orders[|db.orders|], OutstandingUnits(p));
    assert ShelfOf(d) == Reserve(ShelfOf(db), Sorted(items)).value;
  }

  lemma ReturnConserves(db: Db, o: OrderId, p: ProductId)
    requires StockOk(db) && ReturnOrder(db, o).Ok?
    ensures ShelvesOk(ShelfOf(ReturnOrder(db, o).value))
    ensures p in db.inventory ==> Held(ReturnOrder(db, o).value, p) == Held(db, p)
    ensures p !in db.inventory ==> History(ReturnOrder(db, o).value.outbox, p) == History(db.outbox, p)
  {
    var d := ReturnOrder(db, o).value;
    RestockKeys(ShelfOf(db), db.orders[o].lines);
    RestockReturns(ShelfOf(db), db.orders[o].lines, p);
    SumUpdate(db.orders, o, Advance(db.orders[o], Dikembalikan), OutstandingUnits(p));
    assert ShelfOf(d) == Restock(ShelfOf(db), db.orders[o].lines);
  }

  lemma JobOpsConserve(db: Db, op: Op, p: ProductId)
    requires JobOp(op) && Attempt(db, op).Ok?
    ensures Held(Attempt(db, op).value, p) == Held(db, p)
    ensures History(Attempt(db, op).value.outbox, p) == History(db.outbox, p)
  {
    hide Checkout, ReturnOrder, Consume, SetStock, AddItem, SetQuantity;
    var o := op.order;
    SumUpdate(db.orders, o, Attempt(db, op).value.orders[o], OutstandingUnits(p));
    if op.DoCompleteJob? {
      HistoryAppend(db.outbox, CompletionOf(o, db.orders[o]), p);
    }
  }

  lemma SetStockKeepsStock(db: Db, seller: UserId, p: ProductId, units: nat, home: ProductId -> StoreId)
    requires StockOk(db) && RefsOk(db, home) && SetStock(db, seller, p, units).Ok?
    ensures StockOk(SetStock(db, seller, p, units).value)
  {
    hide ShelfOk;
    if p in db.products && db.products[p].store in db.stores {
      assert p in db.inventory <==> Live(db, p);
      PutKeepsShelves(ShelfOf(db), p, units);
      assert ShelfOf(SetStock(db, seller, p, units).value) == Put(ShelfOf(db), p, units);
    } else {
      assert ShelfOf(SetStock(db, seller, p, units).value) == ShelfOf(db);
    }
  }

  lemma ArrivalKeepsShelves(db: Db, p: ProductId, store: StoreId)
    requires ShelvesOk(ShelfOf(db))
    requires p in db.inventory || History(db.outbox, p) == []
    ensures ShelvesOk(Arrival(db, p, store))
    ensures forall q :: q != p ==> History(Arrival(db, p, store).outbox, q) == History(db.outbox, q)
  {
    var stocked := if p in db.inventory then ShelfOf(db) else Shelf(db.inventory[p := Stock(0, 0)], db.outbox);
    forall q ensures ShelfOk(stocked, q) {
      assert ShelfOk(ShelfOf(db), q);
    }
    hide ShelfOk;
    if p in db.pending {
      PutKeepsShelves(stocked, p, db.pending[p].units);
    }
  }

  lemma DeletionKeepsStock(db: Db, p: ProductId, version: nat)
    requires StockOk(db) && ReplicateDeletion(db, p, version).Ok?
    ensures StockOk(ReplicateDeletion(db, p, version).value)
  {
    var d := ReplicateDeletion(db, p, version).value;
    forall q ensures ShelfOk(ShelfOf(d), q) {
      assert ShelfOk(ShelfOf(db), q);
    }
  }

  lemma ProductKeepsStock(db: Db, p: ProductId, store: StoreId, f: ProductFields, version: nat, home: ProductId -> StoreId)
    requires StockOk(db) && RefsOk(db, home) && ReplicateProduct(db, p, store, f, version).Ok?
    ensures StockOk(ReplicateProduct(db, p, store, f, version).value)
  {
    hide ShelfOk;
    var d := ReplicateProduct(db, p, store, f, version).value;
    assert p in db.inventory <==> Live(db, p);
    if d.outbox != db.outbox || d.inventory != db.inventory {
      ArrivalKeepsShelves(db, p, store);
      assert ShelfOf(d) == Arrival(db, p, store);
    } else {
      assert ShelfOf(d) == ShelfOf(db);
    }
  }

  lemma ConsumeKeepsStock(db: Db, e: CatalogEvent, home: ProductId -> StoreId)
    requires StockOk(db) && RefsOk(db, home) && Consume(db, e).Ok?
    ensures StockOk(Consume(db, e).value)
  {
    hide ShelvesOk, RefsOk, ReplicateProduct, ReplicateDeletion;
    match e
    case StoreUpserted(s, seller, name, slug, version) =>
      assert ShelfOf(Consume(db, e).value) == ShelfOf(db);
    case ProductUpserted(p, store, f, version) => ProductKeepsStock(db, p, store, f, version, home);
    case ProductDeleted(p, version) => DeletionKeepsStock(db, p, version);
  }

  lemma StepKeepsStock(db: Db, op: Op, home: ProductId -> StoreId)
    requires StockOk(db) && Replica(db, home)
    ensures StockOk(Step(db, op))
  {
    hide Checkout, ReturnOrder, Consume, SetStock, AddItem, SetQuantity, ProcessOrder, TakeJob, CompleteJob;
    hide ShelfOk, RefsOk, CartsOk;
    if Attempt(db, op).Ok? {
      var d := Step(db, op);
      match op
      case DoCheckout(buyer, req) =>
        CheckoutFrame(db, buyer, req);
        CheckoutConserves(db, buyer, req, 0);
        forall p | p !in db.products ensures History(d.outbox, p) == [] {
          Unstocked(db, p, home);
          CheckoutConserves(db, buyer, req, p);
        }
      case DoReturnOrder(o) =>
        ReturnFrame(db, o);
        ReturnConserves(db, o, 0);
        forall p | p !in db.products ensures History(d.outbox, p) == [] {
          Unstocked(db, p, home);
          ReturnConserves(db, o, p);
        }
      case DoSetStock(seller, p, units) => SetStockKeepsStock(db, seller, p, units, home);
      case DoConsume(e) => ConsumeKeepsStock(db, e, home);
      case _ => OtherOpsKeepStock(db, op);
    }
  }

  lemma Unstocked(db: Db, p: ProductId, home: ProductId -> StoreId)
    requires RefsOk(db, home) && p !in db.products
    ensures p !in db.inventory
  {
  }

  lemma OtherOpsKeepStock(db: Db, op: Op)
    requires StockOk(db) && Attempt(db, op).Ok?
    requires JobOp(op) || WalletOp(op) || CodeOp(op) || CartOp(op)
    ensures StockOk(Attempt(db, op).value)
  {
    hide Attempt;
    var d := Attempt(db, op).value;
    if JobOp(op) {
      JobFrame(db, op);
      forall p ensures ShelfOk(ShelfOf(d), p) && History(d.outbox, p) == History(db.outbox, p) {
        assert ShelfOk(ShelfOf(db), p);
        JobOpsConserve(db, op, p);
      }
    } else {
      if WalletOp(op) {
        WalletFrame(db, op);
      } else if CartOp(op) {
        CartFrame(db, op);
      } else {
        CodeFrame(db, op);
      }
      assert ShelfOf(d) == ShelfOf(db);
    }
  }

  lemma OtherOpsConserve(db: Db, op: Op, p: ProductId)
    requires Attempt(db, op).Ok?
    requires JobOp(op) || WalletOp(op) || CodeOp(op) || CartOp(op)
    ensures Held(Attempt(db, op).value, p) == Held(db, p)
  {
    hide Attempt;
    if JobOp(op) {
      JobOpsConserve(db, op, p);
    } else if WalletOp(op) {
      WalletFrame(db, op);
    } else if CartOp(op) {
      CartFrame(db, op);
    } else {
      CodeFrame(db, op);
    }
  }

  lemma SetStockAdjusts(db: Db, seller: UserId, q: ProductId, units: nat, p: ProductId, home: ProductId -> StoreId)
    requires RefsOk(db, home) && p in db.inventory && SetStock(db, seller, q, units).Ok?
    ensures Held(SetStock(db, seller, q, units).value, p)
      == Held(db, p) + Adjustment(db, DoSetStock(seller, q, units), p)
  {
    assert p in db.inventory <==> Live(db, p);
  }

  lemma ConsumeConserves(db: Db, e: CatalogEvent, p: ProductId, home: ProductId -> StoreId)
    requires RefsOk(db, home) && Consume(db, e).Ok?
    requires p in db.inventory && p in Consume(db, e).value.inventory
    ensures Held(Consume(db, e).value, p) == Held(db, p)
  {
    assert p in db.inventory <==> Live(db, p);
    assert p in db.pending ==> p !in db.products;
  }

  /** For a product that stays stocked, only the seller setting its stock changes what is held. */
  lemma StepConservesUnits(db: Db, op: Op, p: ProductId, home: ProductId -> StoreId)
    requires StockOk(db) && Replica(db, home)
    requires p in db.inventory && p in Step(db, op).inventory
    ensures Held(Step(db, op), p) == Held(db, p) + Adjustment(db, op, p)
  {
    hide Checkout, ReturnOrder, Consume, SetStock, AddItem, SetQuantity, ProcessOrder, TakeJob, CompleteJob;
    hide StockOk, RefsOk, CartsOk, Held;
    if Attempt(db, op).Ok? {
      match op
      case DoCheckout(buyer, req) => CheckoutConserves(db, buyer, req, p);
      case DoReturnOrder(o) => ReturnConserves(db, o, p);
      case DoSetStock(seller, q, units) => SetStockAdjusts(db, seller, q, units, p, home);
      case DoConsume(e) => ConsumeConserves(db, e, p, home);
      case _ => OtherOpsConserve(db, op, p);
    }
  }

  /** In every reachable state stock is never negative and the announced history of each product is
      its versions 1, 2, 3, ... ending in the row commerce holds now. */
  lemma {:induction false} StockInvariant(ops: seq<Op>, home: ProductId -> StoreId)
    requires AllAllowed(ops, home)
    ensures StockOk(Run(EMPTY, ops))
  {
    if ops == [] {
      forall p ensures ShelfOk(ShelfOf(EMPTY), p) && History(EMPTY.outbox, p) == [] {
      }
    } else {
      StockInvariant(ops[..|ops| - 1], home);
      ReplicaInvariant(ops[..|ops| - 1], home);
      StepKeepsStock(Run(EMPTY, ops[..|ops| - 1]), ops[|ops| - 1], home);
    }
  }

  function Adjustments(db: Db, ops: seq<Op>, p: ProductId): int {
    if ops == [] then 0
    else Adjustments(db, ops[..|ops| - 1], p) + Adjustment(Run(db, ops[..|ops| - 1]), ops[|ops| - 1], p)
  }

  /** Over any stretch of a run during which `p` stays stocked, shelf units plus units in orders not
      returned differ only by what the seller set. */
  lemma {:induction false} UnitsConserved(db: Db, ops: seq<Op>, p: ProductId, home: ProductId -> StoreId)
    requires StockOk(db) && Replica(db, home) && AllAllowed(ops, home)
    requires forall k :: 0 <= k <= |ops| ==> p in Run(db, ops[..k]).inventory
    ensures StockOk(Run(db, ops)) && Replica(Run(db, ops), home)
    ensures Held(Run(db, ops), p) == Held(db, p) + Adjustments(db, ops, p)
  {
    if ops != [] {
      var init := ops[..|ops| - 1];
      forall k | 0 <= k <= |init| ensures p in Run(db, init[..k]).inventory {
        assert init[..k] == ops[..k];
      }
      UnitsConserved(db, init, p, home);
      assert ops[..|ops| - 1] == init && ops[..|ops|] == ops;
      StepKeepsStock(Run(db, init), ops[|ops| - 1], home);
      StepKeepsReplica(Run(db, init), ops[|ops| - 1], home);
      StepConservesUnits(Run(db, init), ops[|ops| - 1], p, home);
    }
  }
}

/** What catalog keeps of commerce: sales counted once, purchases, and the stock read model. */
module CatalogSales {
  import opened Prelude
  import opened Contracts
  import opened Catalog
  import Commerce
  import CommerceStock

  /** Deliveries come from commerce's outbox (its final one: rows are only appended), in any order, any
      number of times; the row index is the event id. */
  predicate Delivered(op: Op, outbox: seq<CommerceEvent>) {
    op.DoConsume? ==> op.id < |outbox| && outbox[op.id] == op.event
  }

  function UnitsOf(p: ProductId): SoldItem -> int {
    (i: SoldItem) => if i.product == Some(p) then i.quantity else 0
  }

  function Sold(items: seq<SoldItem>, p: ProductId): int { Sum(items, UnitsOf(p)) }

  function SoldIn(e: CommerceEvent, p: ProductId): int {
    if e.OrderCompleted? then Sold(e.items, p) else 0
  }

  /** Units of `p` over the distinct delivered completions. */
  function Counted(outbox: seq<CommerceEvent>, inbox: set<nat>, p: ProductId): int {
    if outbox == [] then 0
    else
      var n := |outbox| - 1;
      Counted(outbox[..n], inbox, p) + if n in inbox then SoldIn(outbox[n], p) else 0
  }

  function SoldCount(cat: Cat, p: ProductId): int
    requires p in cat.products
  {
    cat.products[p].fields.soldCount
  }

  lemma {:induction false} CountedOnce(outbox: seq<CommerceEvent>, inbox: set<nat>, id: nat, p: ProductId)
    requires id !in inbox
    ensures Counted(outbox, inbox + {id}, p)
      == Counted(outbox, inbox, p) + if id < |outbox| then SoldIn(outbox[id], p) else 0
  {
    if outbox != [] {
      CountedOnce(outbox[..|outbox| - 1], inbox, id, p);
    }
  }

  lemma {:induction false} SalesAdd(cat: Cat, buyer: UserId, items: seq<SoldItem>, p: ProductId)
    ensures var d := ApplySales(cat, buyer, items);
      && d.products.Keys == cat.products.Keys && d.inbox == cat.inbox && d.reviews == cat.reviews && d.stores == cat.stores
      && (p in cat.products ==>
            && SoldCount(d, p) == SoldCount(cat, p) + Sold(items, p)
            && d.products[p].store == cat.products[p].store
            && d.products[p].stock == cat.products[p].stock && d.products[p].stockVersion == cat.products[p].stockVersion
            && d.products[p].fields.rating == cat.products[p].fields.rating
            && d.products[p].fields.reviewCount == cat.products[p].fields.reviewCount)
  {
    if items != [] {
      SalesAdd(cat, buyer, items[..|items| - 1], p);
    }
  }

  lemma StepCounts(cat: Cat, op: Op, outbox: seq<CommerceEvent>, p: ProductId, home: ProductId -> StoreId)
    requires p in cat.products && p in Step(cat, op).products
    requires Delivered(op, outbox) && Allowed(cat, op, home)
    ensures SoldCount(Step(cat, op), p) - SoldCount(cat, p)
      == Counted(outbox, Step(cat, op).inbox, p) - Counted(outbox, cat.inbox, p)
  {
    hide ApplySales, Counted;
    if op.DoConsume? && op.event.OrderCompleted? && op.id !in cat.inbox {
      SalesAdd(cat.(inbox := cat.inbox + {op.id}), op.event.buyer, op.event.items, p);
      CountedOnce(outbox, cat.inbox, op.id, p);
    }
  }

  /** `p` exists at every point of the run. */
  ghost predicate Stays(cat: Cat, ops: seq<Op>, p: ProductId) {
    forall k :: 0 <= k <= |ops| ==> p in Run(cat, ops[..k]).products
  }

  ghost predicate Deliveries(ops: seq<Op>, outbox: seq<CommerceEvent>) {
    forall k :: 0 <= k < |ops| ==> Delivered(ops[k], outbox)
  }

  lemma Shorter(cat: Cat, ops: seq<Op>, p: ProductId, outbox: seq<CommerceEvent>, home: ProductId -> StoreId)
    requires ops != []
    ensures
      var init := ops[..|ops| - 1];
      && (Stays(cat, ops, p) ==> Stays(cat, init, p) && p in Run(cat, init).products && p in Run(cat, ops).products)
      && (Deliveries(ops, outbox) ==> Deliveries(init, outbox))
      && (AllAllowed(cat, ops, home) ==> AllAllowed(cat, init, home) && Allowed(Run(cat, init), ops[|ops| - 1], home))
  {
    hide Run, Allowed;
    var init := ops[..|ops| - 1];
    assert forall k :: 0 <= k <= |init| ==> init[..k] == ops[..k];
    assert init[..|init|] == init && ops[..|ops|] == ops;
  }

  /** Whatever the deliveries - repeated, reordered, interleaved with sellers and reviewers - the sold
      count of a product grows by exactly the units of the distinct completions delivered. */
  lemma {:induction false} SalesCountedOnce(
    cat: Cat, ops: seq<Op>, outbox: seq<CommerceEvent>, p: ProductId, home: ProductId -> StoreId)
    requires Stays(cat, ops, p) && Deliveries(ops, outbox) && AllAllowed(cat, ops, home)
    ensures p in cat.products && p in Run(cat, ops).products
    ensures SoldCount(Run(cat, ops), p) - SoldCount(cat, p)
      == Counted(outbox, Run(cat, ops).inbox, p) - Counted(outbox, cat.inbox, p)
  {
    hide Allowed, Step, Counted, Delivered;
    assert p in cat.products by { assert ops[..0] == []; }
    if ops != [] {
      var init := ops[..|ops| - 1];
      Shorter(cat, ops, p, outbox, home);
      hide Stays, AllAllowed;
      SalesCountedOnce(cat, init, outbox, p, home);
      StepCounts(Run(cat, init), ops[|ops| - 1], outbox, p, home);
    }
  }

  // ----- purchases -----

  predicate Includes(items: seq<SoldItem>, p: ProductId) {
    exists i :: 0 <= i < |items| && items[i].product == Some(p)
  }

  predicate Buys(e: CommerceEvent, buyer: UserId, p: ProductId) {
    e.OrderCompleted? && e.buyer == buyer && Includes(e.items, p)
  }

  ghost predicate Bought(outbox: seq<CommerceEvent>, inbox: set<nat>, buyer: UserId, p: ProductId) {
    exists i :: i in inbox && i < |outbox| && Buys(outbox[i], buyer, p)
  }

  /** Purchases are exactly the (buyer, product) pairs of the delivered completions. */
  ghost predicate PurchasesOk(cat: Cat, outbox: seq<CommerceEvent>) {
    forall buyer: UserId, p: ProductId :: (buyer, p) in cat.purchases <==> Bought(outbox, cat.inbox, buyer, p)
  }

  lemma {:induction false} SalesBuy(cat: Cat, buyer: UserId, items: seq<SoldItem>, b: UserId, p: ProductId)
    ensures (b, p) in ApplySales(cat, buyer, items).purchases
      <==> (b, p) in cat.purchases || (b == buyer && Includes(items, p))
    ensures ApplySales(cat, buyer, items).inbox == cat.inbox
  {
    if items != [] {
      var init, last := items[..|items| - 1], items[|items| - 1];
      SalesBuy(cat, buyer, init, b, p);
      IncludesLast(items, p);
    }
  }

  lemma IncludesLast(items: seq<SoldItem>, p: ProductId)
    requires items != []
    ensures Includes(items, p) <==> Includes(items[..|items| - 1], p) || items[|items| - 1].product == Some(p)
  {
    var init := items[..|items| - 1];
    if Includes(items, p) {
      var i :| 0 <= i < |items| && items[i].product == Some(p);
      assert i < |init| ==> init[i] == items[i];
    }
    if Includes(init, p) {
      var i :| 0 <= i < |init| && init[i].product == Some(p);
      assert items[i] == init[i];
    }
  }

  lemma StepKeepsPurchases(cat: Cat, op: Op, outbox: seq<CommerceEvent>)
    requires PurchasesOk(cat, outbox) && Delivered(op, outbox)
    ensures PurchasesOk(Step(cat, op), outbox)
  {
    var d := Step(cat, op);
    if op.DoConsume? && op.event.OrderCompleted? && op.id !in cat.inbox {
      hide ApplySales;
      var inboxed := cat.(inbox := cat.inbox + {op.id});
      forall buyer: UserId, p: ProductId ensures (buyer, p) in d.purchases <==> Bought(outbox, d.inbox, buyer, p) {
        SalesBuy(inboxed, op.event.buyer, op.event.items, buyer, p);
        BoughtWith(outbox, cat.inbox, op.id, buyer, p);
      }
    } else {
      assert d.purchases == cat.purchases && d.inbox == cat.inbox;
    }
  }

  lemma BoughtWith(outbox: seq<CommerceEvent>, inbox: set<nat>, id: nat, buyer: UserId, p: ProductId)
    requires id < |outbox|
    ensures Bought(outbox, inbox + {id}, buyer, p) <==> Bought(outbox, inbox, buyer, p) || Buys(outbox[id], buyer, p)
  {
    hide Buys;
    if Bought(outbox, inbox, buyer, p) {
      var i :| i in inbox && i < |outbox| && Buys(outbox[i], buyer, p);
      assert i in inbox + {id};
    }
    assert id in inbox + {id};
  }

  lemma {:induction false} PurchasesInvariant(ops: seq<Op>, outbox: seq<CommerceEvent>)
    requires Deliveries(ops, outbox)
    ensures PurchasesOk(Run(EMPTY, ops), outbox)
  {
    hide Delivered, Step;
    if ops != [] {
      hide PurchasesOk;
      PurchasesInvariant(ops[..|ops| - 1], outbox);
      StepKeepsPurchases(Run(EMPTY, ops[..|ops| - 1]), ops[|ops| - 1], outbox);
    }
  }

  // ----- the stock read model -----

  /** The announcements of one product carry versions 1, 2, 3, ... (`StockInvariant` of commerce). */
  ghost predicate Numbered(outbox: seq<CommerceEvent>, p: ProductId) {
    var h := CommerceStock.History(outbox, p);
    forall k :: 0 <= k < |h| ==> h[k].version == k + 1
  }

  ghost predicate HeldBy(product: Product, outbox: seq<CommerceEvent>, p: ProductId) {
    var h := CommerceStock.History(outbox, p);
    if product.stockVersion == 0 then product.stock == 0
    else product.stockVersion <= |h| && h[product.stockVersion - 1] == Commerce.Stock(product.stock, product.stockVersion)
  }

  /** What catalog shows as stock is the initial nothing or a pair commerce really held. */
  ghost predicate StockModelOk(cat: Cat, outbox: seq<CommerceEvent>) {
    forall p :: p in cat.products ==> HeldBy(cat.products[p], outbox, p)
  }

  lemma {:induction false} AnnouncedIsHeld(outbox: seq<CommerceEvent>, id: nat)
    requires id < |outbox| && outbox[id].InventoryChanged?
    ensures
      var e := outbox[id];
      Commerce.Stock(e.stock, e.version) in CommerceStock.History(outbox, e.product)
  {
    if id < |outbox| - 1 {
      AnnouncedIsHeld(outbox[..|outbox| - 1], id);
    }
  }

  lemma StepKeepsStockModel(cat: Cat, op: Op, outbox: seq<CommerceEvent>, p: ProductId)
    requires p in cat.products ==> HeldBy(cat.products[p], outbox, p)
    requires Numbered(outbox, p) && Delivered(op, outbox)
    ensures p in Step(cat, op).products ==> HeldBy(Step(cat, op).products[p], outbox, p)
  {
    hide ApplySales, CommerceStock.History;
    if op.DoConsume? {
      var e := op.event;
      match e
      case InventoryChanged(q, _, _) =>
        AnnouncedIsHeld(outbox, op.id);
      case OrderCompleted(_, buyer, items) =>
        SalesAdd(cat.(inbox := cat.inbox + {op.id}), buyer, items, p);
    }
  }

  /** The model never moves back, and reaches at least every version delivered. */
  lemma StepAdvancesStock(cat: Cat, op: Op, p: ProductId, home: ProductId -> StoreId)
    requires p in cat.products && p in Step(cat, op).products && Allowed(cat, op, home)
    ensures Step(cat, op).products[p].stockVersion >= cat.products[p].stockVersion
    ensures op.DoConsume? && op.event.InventoryChanged? && op.event.product == p ==>
      Step(cat, op).products[p].stockVersion >= op.event.version
  {
    hide ApplySales;
    if op.DoConsume? && op.event.OrderCompleted? {
      SalesAdd(cat.(inbox := cat.inbox + {op.id}), op.event.buyer, op.event.items, p);
    }
  }

  lemma {:induction false} StockModelInvariant(ops: seq<Op>, outbox: seq<CommerceEvent>)
    requires Deliveries(ops, outbox) && forall p :: Numbered(outbox, p)
    ensures StockModelOk(Run(EMPTY, ops), outbox)
  {
    hide Delivered, Step, HeldBy, Numbered;
    if ops != [] {
      var init := ops[..|ops| - 1];
      StockModelInvariant(init, outbox);
      forall p | p in Run(EMPTY, ops).products ensures HeldBy(Run(EMPTY, ops).products[p], outbox, p) {
        StepKeepsStockModel(Run(EMPTY, init), ops[|ops| - 1], outbox, p);
      }
    }
  }

  /** Versions only grow while `p` exists, past every announcement handed over meanwhile. */
  lemma {:induction false} StockNeverMovesBack(cat: Cat, ops: seq<Op>, p: ProductId, k: nat, home: ProductId -> StoreId)
    requires Stays(cat, ops, p) && AllAllowed(cat, ops, home)
    ensures p in cat.products && p in Run(cat, ops).products
    ensures Run(cat, ops).products[p].stockVersion >= cat.products[p].stockVersion
    ensures k < |ops| && ops[k].DoConsume? && ops[k].event.InventoryChanged? && ops[k].event.product == p ==>
      Run(cat, ops).products[p].stockVersion >= ops[k].event.version
  {
    hide Allowed, Step;
    assert p in cat.products by { assert ops[..0] == []; }
    if ops != [] {
      Shorter(cat, ops, p, [], home);
      hide Stays, AllAllowed;
      StockNeverMovesBack(cat, ops[..|ops| - 1], p, k, home);
      StepAdvancesStock(Run(cat, ops[..|ops| - 1]), ops[|ops| - 1], p, home);
    }
  }

  /** Once the newest announcement has arrived the pair is commerce's own row. */
  lemma LatestIsCommerce(db: Commerce.Db, product: Product, p: ProductId)
    requires CommerceStock.ShelfOk(Commerce.ShelfOf(db), p) && p in db.inventory
    requires HeldBy(product, db.outbox, p) && product.stockVersion >= |CommerceStock.History(db.outbox, p)|
    ensures db.inventory[p] == Commerce.Stock(product.stock, product.stockVersion)
  {
  }
}

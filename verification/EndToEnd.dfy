/** Catalog and commerce together: what each ends up holding of the other once events have arrived. */
module EndToEnd {
  import opened Prelude
  import opened Contracts
  import Cm = Commerce
  import CommerceReplica
  import CommerceStock
  import CommerceOrders
  import CommerceSync
  import Ct = Catalog
  import CatalogLog
  import CatalogSales
  import CatalogReviews

  // ----- catalog to commerce -----

  /** Commerce's assumption about its input is what catalog's log guarantees. */
  lemma LoggedEventsAreAllowed(cat: Ct.Cat, e: CatalogEvent, home: ProductId -> StoreId)
    requires CatalogLog.LogOk(cat, home) && e in cat.log
    ensures Cm.Allowed(Cm.DoConsume(e), home)
  {
    assert CatalogLog.Explained(cat, e, home);
  }

  lemma LoggedIsWellVersioned(cat: Ct.Cat, es: seq<CatalogEvent>, p: ProductId, home: ProductId -> StoreId)
    requires CatalogLog.LogOk(cat, home) && forall i :: 0 <= i < |es| ==> es[i] in cat.log && CommerceSync.About(es[i], p)
    ensures CommerceSync.WellVersioned(es, p)
  {
    assert CatalogLog.AllCoherent(cat.log);
    hide CatalogLog.LogOk;
    forall i, j | 0 <= i < |es| && 0 <= j < |es|
      ensures es[i].version == es[j].version ==> es[i] == es[j]
      ensures es[i].ProductUpserted? && es[j].ProductDeleted? ==> es[i].version < es[j].version
      ensures es[i].ProductDeleted? && es[j].ProductDeleted? ==> es[i] == es[j]
    {
      assert CatalogLog.Coherent(es[i], es[j]) && CatalogLog.Coherent(es[j], es[i]);
    }
  }

  /** Commerce handled every event about `p`, each at least once and in whatever order. */
  ghost predicate Arrived(cat: Ct.Cat, es: seq<CatalogEvent>, p: ProductId) {
    && (forall i :: 0 <= i < |es| ==> es[i] in cat.log && CommerceSync.About(es[i], p))
    && (forall e :: e in cat.log && CommerceSync.About(e, p) ==> e in es)
  }

  lemma OnlyDeletionsDelete(cat: Ct.Cat, es: seq<CatalogEvent>, p: ProductId)
    requires Arrived(cat, es, p) && CommerceSync.DeletedAfterUpsert(es)
    ensures CatalogLog.DeletionLogged(cat.log, p)
  {
    var i, j :| 0 <= i < j < |es| && es[i].ProductUpserted? && es[j].ProductDeleted?;
    assert es[j] in cat.log;
  }

  /** The commerce replica converges whatever else commerce does meanwhile: a live product's row is
      catalog's product field by field, there are rows for exactly the products ever upserted, and a
      deleted one's is a tombstone if and only if its deletion was handled after some upsert. */
  lemma CommerceConverges(cat: Ct.Cat, ops: seq<Cm.Op>, p: ProductId, home: ProductId -> StoreId)
    requires CatalogLog.LogOk(cat, home) && Arrived(cat, CommerceSync.Consumed(Cm.EMPTY, ops, p), p)
    ensures
      var db := Cm.Run(Cm.EMPTY, ops);
      && (p in cat.products ==>
            var c := cat.products[p];
            p in db.products && db.products[p] == Cm.ProductRef(
              c.store, c.fields.name, c.fields.slug, c.fields.price, c.fields.imageKey, false, c.version))
      && (p !in cat.products && p in db.products ==>
            (db.products[p].deleted <==> CommerceSync.DeletedAfterUpsert(CommerceSync.Consumed(Cm.EMPTY, ops, p))))
      && (p in db.products <==> exists e :: e in cat.log && e.ProductUpserted? && e.product == p)
  {
    hide CatalogLog.LogOk, CommerceSync.DeletedAfterUpsert;
    var es := CommerceSync.Consumed(Cm.EMPTY, ops, p);
    CommerceSync.RefIsFoldOfDeliveries(ops, p);
    LoggedIsWellVersioned(cat, es, p, home);
    CommerceSync.RefCharacterised(es, p);
    var ref := CommerceSync.RefAfter(es);
    if p in cat.products {
      CatalogLog.LiveHasNoDeletion(cat, p, home);
      if CommerceSync.DeletedAfterUpsert(es) {
        OnlyDeletionsDelete(cat, es, p);
      }
      CurrentIsLogged(cat, p, home);
      assert Ct.ProductEvent(p, cat.products[p]) in es;
      NewestIsCurrent(cat, es, ref.value, p, home);
    }
  }

  /** Store rows converge in every delivery order, with no condition: once every event of a store has
      been handled its row is catalog's store. */
  lemma StoresConverge(cat: Ct.Cat, ops: seq<Cm.Op>, s: StoreId, home: ProductId -> StoreId)
    requires CatalogLog.LogOk(cat, home)
    requires forall e :: e in CommerceSync.Handled(Cm.EMPTY, ops) ==> e in cat.log
    requires forall e :: e in cat.log && e.StoreUpserted? && e.store == s ==> e in CommerceSync.Handled(Cm.EMPTY, ops)
    ensures
      var db := Cm.Run(Cm.EMPTY, ops);
      && (s in db.stores <==> s in cat.stores)
      && (s in cat.stores ==>
            var c := cat.stores[s];
            db.stores[s] == Cm.StoreRef(c.seller, c.name, c.slug, c.version))
  {
    CommerceSync.StoreIsNewestHandled(ops, s);
    StoreRowIsCurrent(cat, Cm.Run(Cm.EMPTY, ops), CommerceSync.Handled(Cm.EMPTY, ops), s, home);
  }

  lemma StoreRowIsCurrent(cat: Ct.Cat, db: Cm.Db, handled: seq<CatalogEvent>, s: StoreId, home: ProductId -> StoreId)
    requires CatalogLog.LogOk(cat, home) && CommerceSync.NewestStore(db, handled, s)
    requires forall e :: e in handled ==> e in cat.log
    requires forall e :: e in cat.log && e.StoreUpserted? && e.store == s ==> e in handled
    ensures s in db.stores <==> s in cat.stores
    ensures s in cat.stores ==>
      var c := cat.stores[s];
      db.stores[s] == Cm.StoreRef(c.seller, c.name, c.slug, c.version)
  {
    if s in db.stores {
      var e :| e in handled && e.StoreUpserted? && e.store == s && db.stores[s] == CommerceSync.StoreRefOf(e);
      assert CatalogLog.Explained(cat, e, home);
    }
    if s in cat.stores {
      var current := Ct.StoreEvent(s, cat.stores[s]);
      assert current in cat.log;
    }
  }

  lemma CurrentIsLogged(cat: Ct.Cat, p: ProductId, home: ProductId -> StoreId)
    requires CatalogLog.LogOk(cat, home) && p in cat.products
    ensures Ct.ProductEvent(p, cat.products[p]) in cat.log
  {
  }

  lemma NewestIsCurrent(cat: Ct.Cat, es: seq<CatalogEvent>, ref: Cm.ProductRef, p: ProductId, home: ProductId -> StoreId)
    requires CatalogLog.LogOk(cat, home) && p in cat.products && Arrived(cat, es, p)
    requires CommerceSync.IsUpsertOf(es, ref)
    requires forall e :: e in es && e.ProductUpserted? ==> e.version <= ref.version
    ensures var c := cat.products[p]; CommerceSync.IsRowOf(ref, c.store, c.fields, c.version)
  {
    var e :| e in es && e.ProductUpserted? && CommerceSync.IsRowOf(ref, e.store, e.fields, e.version);
    var current := Ct.ProductEvent(p, cat.products[p]);
    assert current in es;
    assert CatalogLog.Explained(cat, e, home);
  }

  // ----- commerce to catalog -----

  function CompletedUnits(p: ProductId): Cm.Order -> int {
    (o: Cm.Order) => if o.status == Cm.PesananSelesai then CommerceStock.Units(o.lines, p) else 0
  }

  lemma {:induction false} SoldIsUnits(lines: seq<Cm.Line>, p: ProductId)
    ensures CatalogSales.Sold(Cm.SoldItems(lines), p) == CommerceStock.Units(lines, p)
  {
    if lines != [] {
      var init := lines[..|lines| - 1];
      SoldIsUnits(init, p);
      assert Cm.SoldItems(lines)[..|init|] == Cm.SoldItems(init);
    }
  }

  /** The units of `p` in the completion of one order. */
  function SoldBy(p: ProductId, o: OrderId): CommerceEvent -> int {
    (e: CommerceEvent) => if e.OrderCompleted? && e.order == o then CatalogSales.Sold(e.items, p) else 0
  }

  /** The units of `p` in the completions of the first `n` orders. */
  function SoldBelow(p: ProductId, n: nat): CommerceEvent -> int {
    (e: CommerceEvent) => if e.OrderCompleted? && e.order < n then CatalogSales.Sold(e.items, p) else 0
  }

  lemma {:induction false} OneOrderSold(db: Cm.Db, outbox: seq<CommerceEvent>, o: OrderId, p: ProductId)
    requires o < |db.orders|
    requires forall i :: 0 <= i < |outbox| && outbox[i].OrderCompleted? && outbox[i].order == o ==>
      outbox[i] == Cm.CompletionOf(o, db.orders[o])
    ensures Sum(outbox, SoldBy(p, o))
      == Sum(outbox, CommerceOrders.CompletionsOf(o)) * CommerceStock.Units(db.orders[o].lines, p)
  {
    if outbox != [] {
      OneOrderSold(db, outbox[..|outbox| - 1], o, p);
      SoldIsUnits(db.orders[o].lines, p);
      var last, units := outbox[|outbox| - 1], CommerceStock.Units(db.orders[o].lines, p);
      var before := Sum(outbox[..|outbox| - 1], CommerceOrders.CompletionsOf(o));
      assert (before + 1) * units == before * units + units;
      if last.OrderCompleted? && last.order == o {
        assert last.items == Cm.SoldItems(db.orders[o].lines);
      }
    }
  }

  /** Each completed order is counted once, by the one event it announced. */
  lemma {:induction false} OrdersSold(db: Cm.Db, n: nat, p: ProductId)
    requires CommerceOrders.CompletionsOk(db) && n <= |db.orders|
    ensures Sum(db.outbox, SoldBelow(p, n)) == Sum(db.orders[..n], CompletedUnits(p))
  {
    if n == 0 {
      NothingSold(db.outbox, p);
    } else {
      OrdersSold(db, n - 1, p);
      SumAdd(db.outbox, SoldBelow(p, n - 1), SoldBy(p, n - 1), SoldBelow(p, n));
      assert CommerceOrders.AnnouncedOnce(db, n - 1);
      OneOrderSold(db, db.outbox, n - 1, p);
      assert db.orders[..n][..n - 1] == db.orders[..n - 1];
    }
  }

  lemma {:induction false} NothingSold(outbox: seq<CommerceEvent>, p: ProductId)
    ensures Sum(outbox, SoldBelow(p, 0)) == 0
  {
    if outbox != [] {
      NothingSold(outbox[..|outbox| - 1], p);
    }
  }

  /** Every completion commerce announced has been delivered at least once. */
  ghost predicate AllDelivered(outbox: seq<CommerceEvent>, inbox: set<nat>) {
    forall i :: 0 <= i < |outbox| && outbox[i].OrderCompleted? ==> i in inbox
  }

  lemma {:induction false} CountedIsSold(outbox: seq<CommerceEvent>, inbox: set<nat>, p: ProductId, n: nat)
    requires AllDelivered(outbox, inbox)
    requires forall i :: 0 <= i < |outbox| && outbox[i].OrderCompleted? ==> outbox[i].order < n
    ensures CatalogSales.Counted(outbox, inbox, p) == Sum(outbox, SoldBelow(p, n))
  {
    if outbox != [] {
      CountedIsSold(outbox[..|outbox| - 1], inbox, p, n);
    }
  }

  /** Sold counts are exactly-once end to end: however completions were repeated and reordered on the
      way, once all have arrived a product's sold count has grown, since before any sale of it arrived,
      by its units in completed orders. */
  lemma SoldCountsAreCompletedUnits(
    cops: seq<Cm.Op>, cat: Ct.Cat, ops: seq<Ct.Op>, p: ProductId, home: ProductId -> StoreId)
    requires Cm.AllAllowed(cops, home) && Ct.AllAllowed(cat, ops, home)
    requires CatalogSales.Deliveries(ops, Cm.Run(Cm.EMPTY, cops).outbox)
    requires CatalogSales.Stays(cat, ops, p)
    requires CatalogSales.Counted(Cm.Run(Cm.EMPTY, cops).outbox, cat.inbox, p) == 0
    requires AllDelivered(Cm.Run(Cm.EMPTY, cops).outbox, Ct.Run(cat, ops).inbox)
    ensures p in cat.products && p in Ct.Run(cat, ops).products
    ensures CatalogSales.SoldCount(Ct.Run(cat, ops), p) - CatalogSales.SoldCount(cat, p)
      == Sum(Cm.Run(Cm.EMPTY, cops).orders, CompletedUnits(p))
  {
    hide CommerceOrders.OrdersOk;
    var db := Cm.Run(Cm.EMPTY, cops);
    CommerceOrders.LifecycleInvariant(cops, home);
    CatalogSales.SalesCountedOnce(cat, ops, db.outbox, p, home);
    hide CatalogSales.Stays, CatalogSales.Deliveries;
    CountedIsSold(db.outbox, Ct.Run(cat, ops).inbox, p, |db.orders|);
    OrdersSold(db, |db.orders|, p);
    assert db.orders[..|db.orders|] == db.orders;
  }

  predicate Ordered(order: Cm.Order, p: ProductId) {
    exists i :: 0 <= i < |order.lines| && order.lines[i].product == Some(p)
  }

  ghost predicate CompletedBy(db: Cm.Db, buyer: UserId, p: ProductId) {
    exists o :: 0 <= o < |db.orders| && db.orders[o].status == Cm.PesananSelesai && db.orders[o].buyer == buyer
      && Ordered(db.orders[o], p)
  }

  lemma CompletionBuys(o: OrderId, order: Cm.Order, buyer: UserId, p: ProductId)
    ensures CatalogSales.Buys(Cm.CompletionOf(o, order), buyer, p) <==> order.buyer == buyer && Ordered(order, p)
  {
    var items := Cm.SoldItems(order.lines);
    if Ordered(order, p) {
      var i :| 0 <= i < |order.lines| && order.lines[i].product == Some(p);
      assert items[i].product == Some(p);
    }
    if CatalogSales.Includes(items, p) {
      var i :| 0 <= i < |items| && items[i].product == Some(p);
      assert order.lines[i].product == Some(p);
    }
  }

  lemma {:induction false} AnnouncedSomewhere(outbox: seq<CommerceEvent>, o: OrderId)
    requires Sum(outbox, CommerceOrders.CompletionsOf(o)) != 0
    ensures exists i :: 0 <= i < |outbox| && outbox[i].OrderCompleted? && outbox[i].order == o
  {
    if outbox != [] {
      var n := |outbox| - 1;
      if !(outbox[n].OrderCompleted? && outbox[n].order == o) {
        AnnouncedSomewhere(outbox[..n], o);
        var i :| 0 <= i < n && outbox[..n][i].OrderCompleted? && outbox[..n][i].order == o;
        assert outbox[i] == outbox[..n][i];
      }
    }
  }

  /** A recorded purchase is a completed order of that buyer containing that product. */
  lemma PurchaseIsCompletedOrder(db: Cm.Db, inbox: set<nat>, buyer: UserId, p: ProductId)
    requires CommerceOrders.CompletionsOk(db) && CatalogSales.Bought(db.outbox, inbox, buyer, p)
    ensures CompletedBy(db, buyer, p)
  {
    var i :| i in inbox && i < |db.outbox| && CatalogSales.Buys(db.outbox[i], buyer, p);
    var o := db.outbox[i].order;
    assert CommerceOrders.AnnouncedOnce(db, o);
    CompletionBuys(o, db.orders[o], buyer, p);
    CompletionCounted(db.outbox, i);
  }

  lemma {:induction false} CompletionCounted(outbox: seq<CommerceEvent>, i: nat)
    requires i < |outbox| && outbox[i].OrderCompleted?
    ensures Sum(outbox, CommerceOrders.CompletionsOf(outbox[i].order)) >= 1
  {
    SumAtLeast(outbox, CommerceOrders.CompletionsOf(outbox[i].order), i);
  }

  lemma CompletedOrderIsPurchase(db: Cm.Db, inbox: set<nat>, buyer: UserId, p: ProductId)
    requires CommerceOrders.CompletionsOk(db) && AllDelivered(db.outbox, inbox) && CompletedBy(db, buyer, p)
    ensures CatalogSales.Bought(db.outbox, inbox, buyer, p)
  {
    var o :| 0 <= o < |db.orders| && db.orders[o].status == Cm.PesananSelesai && db.orders[o].buyer == buyer
      && Ordered(db.orders[o], p);
    assert CommerceOrders.AnnouncedOnce(db, o);
    AnnouncedSomewhere(db.outbox, o);
    var i :| 0 <= i < |db.outbox| && db.outbox[i].OrderCompleted? && db.outbox[i].order == o;
    assert i in inbox && db.outbox[i] == Cm.CompletionOf(o, db.orders[o]);
    CompletionBuys(o, db.orders[o], buyer, p);
  }

  /** Purchases name only completed orders at any time, and all of them once every completion has
      arrived; so a review is always by someone whose order of the product was completed. */
  lemma PurchasesAreCompletedOrders(cops: seq<Cm.Op>, ops: seq<Ct.Op>, buyer: UserId, p: ProductId, home: ProductId -> StoreId)
    requires Cm.AllAllowed(cops, home) && Ct.AllAllowed(Ct.EMPTY, ops, home)
    requires CatalogSales.Deliveries(ops, Cm.Run(Cm.EMPTY, cops).outbox)
    ensures (buyer, p) in Ct.Run(Ct.EMPTY, ops).purchases ==> CompletedBy(Cm.Run(Cm.EMPTY, cops), buyer, p)
    ensures AllDelivered(Cm.Run(Cm.EMPTY, cops).outbox, Ct.Run(Ct.EMPTY, ops).inbox) ==>
      (CompletedBy(Cm.Run(Cm.EMPTY, cops), buyer, p) ==> (buyer, p) in Ct.Run(Ct.EMPTY, ops).purchases)
    ensures Ct.Reviewed(Ct.Run(Ct.EMPTY, ops).reviews, p, buyer) ==> CompletedBy(Cm.Run(Cm.EMPTY, cops), buyer, p)
  {
    hide CommerceOrders.OrdersOk, CommerceOrders.CompletionsOk, CompletedBy, CatalogSales.Bought, AllDelivered;
    var db, cat := Cm.Run(Cm.EMPTY, cops), Ct.Run(Ct.EMPTY, ops);
    CommerceOrders.LifecycleInvariant(cops, home);
    CatalogSales.PurchasesInvariant(ops, db.outbox);
    hide CatalogSales.Deliveries;
    if CatalogSales.Bought(db.outbox, cat.inbox, buyer, p) {
      PurchaseIsCompletedOrder(db, cat.inbox, buyer, p);
    }
    if AllDelivered(db.outbox, cat.inbox) && CompletedBy(db, buyer, p) {
      CompletedOrderIsPurchase(db, cat.inbox, buyer, p);
    }
    if Ct.Reviewed(cat.reviews, p, buyer) {
      CatalogReviews.ReviewsInvariant(ops, home);
      var i :| 0 <= i < |cat.reviews| && cat.reviews[i].product == p && cat.reviews[i].buyer == buyer;
      assert CatalogReviews.ReviewOk(cat, i);
    }
  }

  // ----- stock -----

  lemma HistoryIsNumbered(db: Cm.Db, p: ProductId)
    requires CommerceStock.StockOk(db)
    ensures CatalogSales.Numbered(db.outbox, p)
  {
    assert CommerceStock.ShelfOk(Cm.ShelfOf(db), p);
  }

  lemma NothingAnnounced(db: Cm.Db, product: Ct.Product, p: ProductId)
    requires CommerceStock.ShelfOk(Cm.ShelfOf(db), p) && CatalogSales.HeldBy(product, db.outbox, p)
    requires CommerceStock.History(db.outbox, p) == []
    ensures product.stock == 0 && product.stockVersion == 0
    ensures p in db.inventory ==> db.inventory[p] == Cm.Stock(0, 0)
  {
  }

  /** What catalog shows of a product's stock is always a pair commerce really held and announced, or
      the initial nothing. It is exactly commerce's row once every announcement has been delivered while
      the product existed, and also if there was none. */
  lemma CatalogStockIsCommerceStock(
    cops: seq<Cm.Op>, before: seq<Ct.Op>, ops: seq<Ct.Op>, p: ProductId, k: nat, home: ProductId -> StoreId)
    requires Cm.AllAllowed(cops, home) && Ct.AllAllowed(Ct.Run(Ct.EMPTY, before), ops, home)
    requires CatalogSales.Deliveries(before + ops, Cm.Run(Cm.EMPTY, cops).outbox)
    requires CatalogSales.Stays(Ct.Run(Ct.EMPTY, before), ops, p)
    ensures
      var db, cat := Cm.Run(Cm.EMPTY, cops), Ct.Run(Ct.Run(Ct.EMPTY, before), ops);
      && p in cat.products && CatalogSales.HeldBy(cat.products[p], db.outbox, p)
      && (p in db.inventory && k < |ops| && ops[k].DoConsume? && ops[k].event.InventoryChanged?
          && ops[k].event.product == p && ops[k].event.version == |CommerceStock.History(db.outbox, p)| ==>
            db.inventory[p] == Cm.Stock(cat.products[p].stock, cat.products[p].stockVersion))
      && (CommerceStock.History(db.outbox, p) == [] ==>
            cat.products[p].stock == 0 && cat.products[p].stockVersion == 0
            && (p in db.inventory ==> db.inventory[p] == Cm.Stock(0, 0)))
  {
    hide Ct.Run, CatalogSales.HeldBy, CommerceStock.ShelfOk, CatalogSales.Delivered, Ct.Allowed;
    var db := Cm.Run(Cm.EMPTY, cops);
    CommerceStock.StockInvariant(cops, home);
    forall q ensures CatalogSales.Numbered(db.outbox, q) {
      HistoryIsNumbered(db, q);
    }
    RunJoin(Ct.EMPTY, before, ops);
    CatalogSales.StockModelInvariant(before + ops, db.outbox);
    var cat := Ct.Run(Ct.Run(Ct.EMPTY, before), ops);
    CatalogSales.StockNeverMovesBack(Ct.Run(Ct.EMPTY, before), ops, p, k, home);
    assert CommerceStock.ShelfOk(Cm.ShelfOf(db), p);
    if CommerceStock.History(db.outbox, p) == [] {
      NothingAnnounced(db, cat.products[p], p);
    }
    if p in db.inventory && cat.products[p].stockVersion >= |CommerceStock.History(db.outbox, p)| {
      CatalogSales.LatestIsCommerce(db, cat.products[p], p);
    }
  }

  lemma {:induction false} RunJoin(cat: Ct.Cat, a: seq<Ct.Op>, b: seq<Ct.Op>)
    ensures Ct.Run(cat, a + b) == Ct.Run(Ct.Run(cat, a), b)
  {
    hide Ct.Step;
    if b == [] {
      assert a + b == a;
    } else {
      RunJoin(cat, a, b[..|b| - 1]);
      assert (a + b)[..|a + b| - 1] == a + b[..|b| - 1];
    }
  }
}

/** The catalog's event log is a complete, coherent account of its stores and products. */
module CatalogLog {
  import opened Prelude
  import opened Contracts
  import opened Ratings
  import opened Catalog

  /** Two events never disagree: one event per entity version, one deletion, above every upsert. */
  predicate Coherent(e: CatalogEvent, f: CatalogEvent) {
    && (e.StoreUpserted? && f.StoreUpserted? && e.store == f.store && e.version == f.version ==> e == f)
    && (e.ProductUpserted? && f.ProductUpserted? && e.product == f.product && e.version == f.version ==> e == f)
    && (e.ProductUpserted? && f.ProductDeleted? && e.product == f.product ==> e.version < f.version)
    && (e.ProductDeleted? && f.ProductDeleted? && e.product == f.product ==> e == f)
  }

  ghost predicate AllCoherent(log: seq<CatalogEvent>) { forall e, f :: e in log && f in log ==> Coherent(e, f) }

  ghost predicate DeletionLogged(log: seq<CatalogEvent>, p: ProductId) {
    exists e :: e in log && e.ProductDeleted? && e.product == p
  }

  /** Each event is about something that exists, at most as new as it is, or since deleted. */
  predicate Explained(cat: Cat, e: CatalogEvent, home: ProductId -> StoreId) {
    match e
    case StoreUpserted(s, _, _, _, version) =>
      && s in cat.stores && version <= cat.stores[s].version
      && (version == cat.stores[s].version ==> e == StoreEvent(s, cat.stores[s]))
    case ProductUpserted(p, store, _, version) =>
      && store == home(p) && store in cat.stores
      && (p in cat.products ==>
            && version <= cat.products[p].version
            && (version == cat.products[p].version ==> e == ProductEvent(p, cat.products[p])))
    case ProductDeleted(p, _) => p !in cat.products
  }

  ghost predicate LogOk(cat: Cat, home: ProductId -> StoreId) {
    && AllCoherent(cat.log)
    && (forall e :: e in cat.log ==> Explained(cat, e, home))
    && (forall s :: s in cat.stores ==> StoreEvent(s, cat.stores[s]) in cat.log)
    && (forall p :: p in cat.products ==>
          && ProductEvent(p, cat.products[p]) in cat.log
          && cat.products[p].store == home(p) && home(p) in cat.stores)
    && (forall e :: e in cat.log && e.ProductUpserted? && e.product !in cat.products ==> DeletionLogged(cat.log, e.product))
  }

  // ----- the primitives -----

  lemma AppendCoherent(log: seq<CatalogEvent>, g: CatalogEvent)
    requires AllCoherent(log)
    requires forall e :: e in log ==> Coherent(e, g) && Coherent(g, e)
    ensures AllCoherent(log + [g])
  {
    assert forall e :: e in log + [g] <==> e in log || e == g;
  }

  lemma AppendKeepsDeletions(log: seq<CatalogEvent>, g: CatalogEvent, p: ProductId)
    ensures DeletionLogged(log, p) ==> DeletionLogged(log + [g], p)
    ensures g.ProductDeleted? && g.product == p ==> DeletionLogged(log + [g], p)
  {
    assert forall e :: e in log ==> e in log + [g];
    assert g in log + [g];
  }

  lemma PutStoreKeepsLog(cat: Cat, s: StoreId, store: Store, home: ProductId -> StoreId)
    requires LogOk(cat, home)
    requires s in cat.stores ==> store.version > cat.stores[s].version
    ensures LogOk(PutStore(cat, s, store), home)
  {
    var after, g := PutStore(cat, s, store), StoreEvent(s, store);
    assert forall e :: e in after.log <==> e in cat.log || e == g;
    forall e | e in cat.log ensures Coherent(e, g) && Coherent(g, e) && Explained(after, e, home) {
      assert Explained(cat, e, home);
    }
    AppendCoherent(cat.log, g);
    forall e | e in after.log && e.ProductUpserted? && e.product !in after.products
      ensures DeletionLogged(after.log, e.product)
    {
      assert e in cat.log;
      AppendKeepsDeletions(cat.log, g, e.product);
    }
  }

  lemma PutProductKeepsLog(cat: Cat, p: ProductId, product: Product, home: ProductId -> StoreId)
    requires LogOk(cat, home)
    requires product.store == home(p) && home(p) in cat.stores
    requires if p in cat.products then product.version > cat.products[p].version
             else forall e :: e in cat.log ==> !Mentions(e, p)
    ensures LogOk(PutProduct(cat, p, product), home)
  {
    var after, g := PutProduct(cat, p, product), ProductEvent(p, product);
    assert forall e :: e in after.log <==> e in cat.log || e == g;
    forall e | e in cat.log ensures Coherent(e, g) && Coherent(g, e) && Explained(after, e, home) {
      assert Explained(cat, e, home);
    }
    AppendCoherent(cat.log, g);
    forall e | e in after.log && e.ProductUpserted? && e.product !in after.products
      ensures DeletionLogged(after.log, e.product)
    {
      assert e in cat.log;
      AppendKeepsDeletions(cat.log, g, e.product);
    }
  }

  lemma RemoveKeepsLog(cat: Cat, p: ProductId, version: nat, home: ProductId -> StoreId)
    requires LogOk(cat, home) && p in cat.products && version > cat.products[p].version
    ensures LogOk(cat.(products := cat.products - {p}, log := cat.log + [ProductDeleted(p, version)]), home)
  {
    var g := ProductDeleted(p, version);
    var after := cat.(products := cat.products - {p}, log := cat.log + [g]);
    assert forall e :: e in after.log <==> e in cat.log || e == g;
    forall e | e in cat.log ensures Coherent(e, g) && Coherent(g, e) && Explained(after, e, home) {
      assert Explained(cat, e, home);
    }
    AppendCoherent(cat.log, g);
    forall e | e in after.log && e.ProductUpserted? && e.product !in after.products
      ensures DeletionLogged(after.log, e.product)
    {
      AppendKeepsDeletions(cat.log, g, e.product);
    }
  }

  /** Changes to reviews, purchases, the inbox and the stock read model announce nothing. */
  lemma QuietKeepsLog(cat: Cat, after: Cat, home: ProductId -> StoreId)
    requires LogOk(cat, home) && after.log == cat.log && after.stores == cat.stores
    requires after.products.Keys == cat.products.Keys
    requires forall p :: p in cat.products ==>
      var a, b := cat.products[p], after.products[p];
      a.store == b.store && a.fields == b.fields && a.version == b.version
    ensures LogOk(after, home)
  {
    assert forall p :: p in after.products <==> p in cat.products;
    forall e | e in after.log ensures Explained(after, e, home) {
      assert Explained(cat, e, home);
    }
    forall p | p in after.products ensures ProductEvent(p, after.products[p]) in after.log {
      assert ProductEvent(p, after.products[p]) == ProductEvent(p, cat.products[p]);
    }
  }

  lemma NotesKeepLog(
    cat: Cat, reviews: seq<Review>, purchases: set<(UserId, ProductId)>, inbox: set<nat>, home: ProductId -> StoreId)
    requires LogOk(cat, home)
    ensures LogOk(cat.(reviews := reviews, purchases := purchases, inbox := inbox), home)
  {
    QuietKeepsLog(cat, cat.(reviews := reviews, purchases := purchases, inbox := inbox), home);
  }

  // ----- every operation -----

  lemma AdjustKeepsLog(cat: Cat, s: StoreId, delta: int, home: ProductId -> StoreId)
    requires LogOk(cat, home)
    ensures LogOk(AdjustCount(cat, s, delta), home)
  {
    hide LogOk, PutStore;
    if s in cat.stores {
      var store := cat.stores[s];
      PutStoreKeepsLog(cat, s, store.(totalProducts := store.totalProducts + delta, version := store.version + 1), home);
    }
  }

  lemma ProductAtHome(cat: Cat, p: ProductId, home: ProductId -> StoreId)
    requires LogOk(cat, home) && p in cat.products
    ensures cat.products[p].store == home(p) && home(p) in cat.stores
  {
  }

  lemma SaleKeepsLog(cat: Cat, buyer: UserId, item: SoldItem, home: ProductId -> StoreId)
    requires LogOk(cat, home)
    ensures LogOk(ApplySale(cat, buyer, item), home)
  {
    hide LogOk, PutProduct;
    if item.product.Some? {
      var p := item.product.value;
      var bought := cat.(purchases := cat.purchases + {(buyer, p)});
      NotesKeepLog(cat, cat.reviews, bought.purchases, cat.inbox, home);
      if p in cat.products {
        ProductAtHome(cat, p, home);
        var product := cat.products[p];
        PutProductKeepsLog(bought, p, product.(
          fields := product.fields.(soldCount := product.fields.soldCount + item.quantity),
          version := product.version + 1), home);
      }
    }
  }

  lemma {:induction false} SalesKeepLog(cat: Cat, buyer: UserId, items: seq<SoldItem>, home: ProductId -> StoreId)
    requires LogOk(cat, home)
    ensures LogOk(ApplySales(cat, buyer, items), home)
  {
    hide LogOk, ApplySale;
    if items != [] {
      SalesKeepLog(cat, buyer, items[..|items| - 1], home);
      SaleKeepsLog(ApplySales(cat, buyer, items[..|items| - 1]), buyer, items[|items| - 1], home);
    }
  }

  lemma ConsumeKeepsLog(cat: Cat, id: nat, e: CommerceEvent, home: ProductId -> StoreId)
    requires LogOk(cat, home)
    ensures LogOk(Consume(cat, id, e), home)
  {
    match e
    case InventoryChanged(p, stock, version) => QuietKeepsLog(cat, ApplyStock(cat, p, stock, version), home);
    case OrderCompleted(_, buyer, items) =>
      hide LogOk;
      NotesKeepLog(cat, cat.reviews, cat.purchases, cat.inbox + {id}, home);
      SalesKeepLog(cat.(inbox := cat.inbox + {id}), buyer, items, home);
  }

  lemma PutProductStores(cat: Cat, p: ProductId, product: Product)
    ensures PutProduct(cat, p, product).stores == cat.stores
  {
  }

  lemma ReviewKeepsLog(cat: Cat, p: ProductId, buyer: UserId, rating: nat, pa: int, sa: int, home: ProductId -> StoreId)
    requires LogOk(cat, home) && AddReview(cat, p, buyer, rating, pa, sa).Ok?
    ensures LogOk(AddReview(cat, p, buyer, rating, pa, sa).value, home)
  {
    hide LogOk, PutProduct, PutStore;
    ProductAtHome(cat, p, home);
    var product := cat.products[p];
    var fields := product.fields.(rating := pa, reviewCount := product.fields.reviewCount + 1);
    var reviewed := cat.(reviews := cat.reviews + [Review(p, product.store, buyer, rating)]);
    assert reviewed == cat.(reviews := reviewed.reviews, purchases := cat.purchases, inbox := cat.inbox);
    NotesKeepLog(cat, reviewed.reviews, cat.purchases, cat.inbox, home);
    var renewed := product.(fields := fields, version := product.version + 1);
    PutProductKeepsLog(reviewed, p, renewed, home);
    PutProductStores(reviewed, p, renewed);
    var store := cat.stores[product.store];
    PutStoreKeepsLog(PutProduct(reviewed, p, renewed), product.store, store.(
      rating := sa, reviewCount := store.reviewCount + 1, version := store.version + 1), home);
  }

  lemma CreateKeepsLog(cat: Cat, seller: UserId, p: ProductId, s: StoreId, d: Draft, home: ProductId -> StoreId)
    requires LogOk(cat, home) && s == home(p) && p !in cat.products && forall e :: e in cat.log ==> !Mentions(e, p)
    requires CreateProduct(cat, seller, p, s, d).Ok?
    ensures LogOk(CreateProduct(cat, seller, p, s, d).value, home)
  {
    hide LogOk, PutProduct, AdjustCount, Mentions;
    var product := Product(s, ProductFields(d.name, d.slug, d.description, d.price, d.imageKey, 0, 0, 0), 0, 0, 1);
    PutProductKeepsLog(cat, p, product, home);
    AdjustKeepsLog(PutProduct(cat, p, product), s, 1, home);
  }

  lemma UpdateKeepsLog(cat: Cat, seller: UserId, p: ProductId, d: Draft, home: ProductId -> StoreId)
    requires LogOk(cat, home) && UpdateProduct(cat, seller, p, d).Ok?
    ensures LogOk(UpdateProduct(cat, seller, p, d).value, home)
  {
    hide LogOk;
    ProductAtHome(cat, p, home);
    PutProductKeepsLog(cat, p, UpdateProduct(cat, seller, p, d).value.products[p], home);
  }

  lemma DeleteKeepsLog(cat: Cat, seller: UserId, p: ProductId, home: ProductId -> StoreId)
    requires LogOk(cat, home) && DeleteProduct(cat, seller, p).Ok?
    ensures LogOk(DeleteProduct(cat, seller, p).value, home)
  {
    hide LogOk, AdjustCount;
    var product := cat.products[p];
    RemoveKeepsLog(cat, p, product.version + 1, home);
    AdjustKeepsLog(
      cat.(products := cat.products - {p}, log := cat.log + [ProductDeleted(p, product.version + 1)]),
      product.store, -1, home);
  }

  lemma StepKeepsLog(cat: Cat, op: Op, home: ProductId -> StoreId)
    requires LogOk(cat, home) && Allowed(cat, op, home)
    ensures LogOk(Step(cat, op), home)
  {
    hide LogOk, AddReview, Consume, CreateProduct, UpdateProduct, DeleteProduct, PutStore;
    if Attempt(cat, op).Ok? {
      match op
      case DoCreateStore(s, seller, name, slug) =>
        PutStoreKeepsLog(cat, s, Store(seller, name, slug, 0, 0, 0, 1), home);
      case DoUpdateStore(seller, s, name, slug) =>
        var store := cat.stores[s];
        PutStoreKeepsLog(cat, s, store.(name := name, slug := slug, version := store.version + 1), home);
      case DoReview(p, buyer, rating, pa, sa) => ReviewKeepsLog(cat, p, buyer, rating, pa, sa, home);
      case DoConsume(id, e) => ConsumeKeepsLog(cat, id, e, home);
      case DoCreateProduct(seller, p, s, d) => CreateKeepsLog(cat, seller, p, s, d, home);
      case DoUpdateProduct(seller, p, d) => UpdateKeepsLog(cat, seller, p, d, home);
      case DoDeleteProduct(seller, p) => DeleteKeepsLog(cat, seller, p, home);
    }
  }

  lemma StepExtendsLog(cat: Cat, op: Op)
    ensures forall e :: e in cat.log ==> e in Step(cat, op).log
  {
    hide Consume;
    if op.DoConsume? {
      ConsumeExtendsLog(cat, op.id, op.event);
    }
  }

  lemma ConsumeExtendsLog(cat: Cat, id: nat, e: CommerceEvent)
    ensures forall x :: x in cat.log ==> x in Consume(cat, id, e).log
  {
    hide ApplySales;
    if e.OrderCompleted? {
      SalesExtendLog(cat.(inbox := cat.inbox + {id}), e.buyer, e.items);
    }
  }

  lemma {:induction false} SalesExtendLog(cat: Cat, buyer: UserId, items: seq<SoldItem>)
    ensures forall x :: x in cat.log ==> x in ApplySales(cat, buyer, items).log
  {
    if items != [] {
      SalesExtendLog(cat, buyer, items[..|items| - 1]);
    }
  }

  /** Over every run the log keeps everything it ever had and explains the tables completely: the
      current version of each store and product is in it, and whatever it mentions that is gone has
      exactly one deletion above all its upserts. */
  lemma {:induction false} LogInvariant(cat: Cat, ops: seq<Op>, home: ProductId -> StoreId)
    requires LogOk(cat, home) && AllAllowed(cat, ops, home)
    ensures LogOk(Run(cat, ops), home)
    ensures forall e :: e in cat.log ==> e in Run(cat, ops).log
  {
    hide LogOk, Step, Allowed;
    if ops != [] {
      var init := ops[..|ops| - 1];
      forall k | 0 <= k < |init| ensures Allowed(Run(cat, init[..k]), init[k], home) {
        assert init[..k] == ops[..k];
      }
      LogInvariant(cat, init, home);
      assert ops[..|ops| - 1] == init;
      StepKeepsLog(Run(cat, init), ops[|ops| - 1], home);
      StepExtendsLog(Run(cat, init), ops[|ops| - 1]);
    }
  }

  lemma LiveHasNoDeletion(cat: Cat, p: ProductId, home: ProductId -> StoreId)
    requires LogOk(cat, home) && p in cat.products
    ensures !DeletionLogged(cat.log, p)
  {
    forall d | d in cat.log && d.ProductDeleted? ensures d.product != p {
      assert Explained(cat, d, home);
    }
  }

  lemma EmptyLogOk(home: ProductId -> StoreId)
    ensures LogOk(EMPTY, home)
  {
  }
}

/** What each catalog transaction promises its caller: when it is accepted, why it is refused, and what it
    leaves, table by table and event by event. */
module CatalogOutcomes {
  import opened Prelude
  import opened Contracts
  import opened Ratings
  import opened Catalog
  import opened CatalogLog
  import opened CatalogService

  // ----- stores -----

  /** A seller opens one store, under a name nobody has. */
  lemma CreateStoreIff(cat: Cat, s: StoreId, seller: UserId, name: string, slug: string)
    ensures
      var r := Attempt(cat, DoCreateStore(s, seller, name, slug));
      && (r.Ok? <==> forall t :: t in cat.stores ==> cat.stores[t].seller != seller && cat.stores[t].name != name)
      && (r.Err? ==> r.error == Conflict)
      && (r.Ok? ==>
            r.value == cat.(stores := cat.stores[s := Store(seller, name, slug, 0, 0, 0, 1)],
                            log := cat.log + [StoreUpserted(s, seller, name, slug, 1)]))
  {
  }

  predicate TheirStore(cat: Cat, seller: UserId, s: StoreId) { s in cat.stores && cat.stores[s].seller == seller }

  /** A store is renamed by its seller, to any name no other store has. */
  lemma UpdateStoreIff(cat: Cat, seller: UserId, s: StoreId, name: string, slug: string)
    ensures
      var r := Attempt(cat, DoUpdateStore(seller, s, name, slug));
      && (r == Err(NotFound) <==> !TheirStore(cat, seller, s))
      && (r == Err(Conflict) <==>
            && TheirStore(cat, seller, s) && name != cat.stores[s].name
            && exists t :: t in cat.stores && t != s && cat.stores[t].name == name)
      && (r.Err? ==> r.error == NotFound || r.error == Conflict)
      && (r.Ok? ==>
            var was := cat.stores[s];
            r.value == cat.(
              stores := cat.stores[s := Store(seller, name, slug, was.rating, was.reviewCount, was.totalProducts, was.version + 1)],
              log := cat.log + [StoreUpserted(s, seller, name, slug, was.version + 1)]))
  {
  }

  // ----- products -----

  predicate TheirProduct(cat: Cat, seller: UserId, p: ProductId) {
    p in cat.products && TheirStore(cat, seller, cat.products[p].store)
  }

  /** The store counts the change and says so. */
  predicate Counts(was: Store, now: Store, announced: CatalogEvent, s: StoreId, delta: int) {
    && now == Store(was.seller, was.name, was.slug, was.rating, was.reviewCount, was.totalProducts + delta, was.version + 1)
    && announced == StoreUpserted(s, was.seller, was.name, was.slug, was.version + 1)
  }

  /** A product is put on sale by the seller of the store, as it was described, with no rating, no sales and
      no stock yet; it is announced first and the store's new count after it. */
  lemma CreateProductIff(cat: Cat, seller: UserId, p: ProductId, s: StoreId, d: Draft)
    ensures
      var r := Attempt(cat, DoCreateProduct(seller, p, s, d));
      && (r == Err(NotFound) <==> !TheirStore(cat, seller, s))
      && (r == Err(Invalid) <==> TheirStore(cat, seller, s) && d.price < 0)
      && (r.Err? ==> r.error == NotFound || r.error == Invalid)
      && (r.Ok? ==>
            var fields := ProductFields(
              name := d.name, slug := d.slug, description := d.description, price := d.price, imageKey := d.imageKey,
              rating := 0, reviewCount := 0, soldCount := 0);
            && r.value == cat.(products := r.value.products, stores := r.value.stores, log := r.value.log)
            && r.value.products == cat.products[p := Product(s, fields, 0, 0, 1)]
            && |r.value.log| == |cat.log| + 2 && cat.log <= r.value.log
            && r.value.log[|cat.log|] == ProductUpserted(p, s, fields, 1)
            && s in r.value.stores && r.value.stores == cat.stores[s := r.value.stores[s]]
            && Counts(cat.stores[s], r.value.stores[s], r.value.log[|cat.log| + 1], s, 1))
  {
  }

  /** A product is changed by its seller in what a seller may say about it, and announced one version on. */
  lemma UpdateProductIff(cat: Cat, seller: UserId, p: ProductId, d: Draft)
    ensures
      var r := Attempt(cat, DoUpdateProduct(seller, p, d));
      && (r == Err(NotFound) <==> !TheirProduct(cat, seller, p))
      && (r == Err(Invalid) <==> TheirProduct(cat, seller, p) && d.price < 0)
      && (r.Err? ==> r.error == NotFound || r.error == Invalid)
      && (r.Ok? ==>
            var was := cat.products[p];
            var fields := ProductFields(
              name := d.name, slug := d.slug, description := d.description, price := d.price, imageKey := d.imageKey,
              rating := was.fields.rating, reviewCount := was.fields.reviewCount, soldCount := was.fields.soldCount);
            r.value == cat.(
              products := cat.products[p := Product(was.store, fields, was.stock, was.stockVersion, was.version + 1)],
              log := cat.log + [ProductUpserted(p, was.store, fields, was.version + 1)]))
  {
  }

  /** A product is taken down by its seller; its deletion is announced one version above it, and the store's
      new count after that. */
  lemma DeleteProductIff(cat: Cat, seller: UserId, p: ProductId)
    ensures
      var r := Attempt(cat, DoDeleteProduct(seller, p));
      && (r.Ok? <==> TheirProduct(cat, seller, p))
      && (r.Err? ==> r.error == NotFound)
      && (r.Ok? ==>
            var was, s := cat.products[p], cat.products[p].store;
            && r.value == cat.(products := cat.products - {p}, stores := r.value.stores, log := r.value.log)
            && |r.value.log| == |cat.log| + 2 && cat.log <= r.value.log
            && r.value.log[|cat.log|] == ProductDeleted(p, was.version + 1)
            && s in r.value.stores && r.value.stores == cat.stores[s := r.value.stores[s]]
            && Counts(cat.stores[s], r.value.stores[s], r.value.log[|cat.log| + 1], s, -1))
  {
  }

  // ----- reviews -----

  ghost predicate HasReviewed(cat: Cat, p: ProductId, buyer: UserId) {
    exists i :: 0 <= i < |cat.reviews| && cat.reviews[i].product == p && cat.reviews[i].buyer == buyer
  }

  /** One more rating went into the product, and nothing else about it changed. */
  predicate RatedProduct(was: Product, now: Product, rating: nat) {
    && Averaged(now.fields.rating, was.fields.rating, was.fields.reviewCount, rating)
    && now == was.(
         version := was.version + 1,
         fields := was.fields.(rating := now.fields.rating, reviewCount := was.fields.reviewCount + 1))
  }

  predicate RatedStore(was: Store, now: Store, rating: nat) {
    && Averaged(now.rating, was.rating, was.reviewCount, rating)
    && now == was.(version := was.version + 1, rating := now.rating, reviewCount := was.reviewCount + 1)
  }

  /** A review is accepted once from each buyer of a product still on sale; it goes into the averages of the
      product and of its store, and both are announced. */
  lemma ReviewIff(cat: Cat, buyer: UserId, p: ProductId, rating: nat, home: ProductId -> StoreId)
    requires LogOk(cat, home)
    ensures
      var r := ReviewedNow(cat, buyer, p, rating);
      var bought := (buyer, p) in cat.purchases;
      && (r == Err(Forbidden) <==> !bought)
      && (r == Err(Invalid) <==> bought && HasReviewed(cat, p, buyer))
      && (r == Err(NotFound) <==> bought && !HasReviewed(cat, p, buyer) && p !in cat.products)
      && (r.Err? ==> r.error in {Forbidden, Invalid, NotFound})
      && (r.Ok? ==>
            var d, s := r.value, cat.products[p].store;
            && s in cat.stores && p in d.products && s in d.stores
            && d == cat.(
                 reviews := cat.reviews + [Review(p, s, buyer, rating)],
                 products := cat.products[p := d.products[p]], stores := cat.stores[s := d.stores[s]], log := d.log)
            && RatedProduct(cat.products[p], d.products[p], rating)
            && RatedStore(cat.stores[s], d.stores[s], rating)
            && d.log == cat.log
                 + [ProductUpserted(p, s, d.products[p].fields, d.products[p].version)]
                 + [StoreUpserted(s, d.stores[s].seller, d.stores[s].name, d.stores[s].slug, d.stores[s].version)])
  {
    if p in cat.products {
      ProductAtHome(cat, p, home);
    }
    hide LogOk, AddToAverage, Averaged;
  }

  // ----- what commerce announces -----

  /** A newer stock is shown and announced to nobody; an older one is dropped. */
  lemma StockEventLeaves(cat: Cat, id: nat, p: ProductId, stock: int, version: nat)
    ensures
      var r := Attempt(cat, DoConsume(id, InventoryChanged(p, stock, version)));
      r == Ok(if p in cat.products && cat.products[p].stockVersion < version
              then cat.(products := cat.products[p := cat.products[p].(stock := stock, stockVersion := version)])
              else cat)
  {
  }

  /** One item of a completed order: a purchase is noted, the product counts the units and announces them. */
  lemma SaleLeaves(cat: Cat, buyer: UserId, p: ProductId, quantity: nat)
    ensures
      var d := ApplySale(cat, buyer, SoldItem(Some(p), quantity));
      && d == cat.(purchases := cat.purchases + {(buyer, p)}, products := d.products, log := d.log)
      && (p !in cat.products ==> d.products == cat.products && d.log == cat.log)
      && (p in cat.products ==>
            var was := cat.products[p];
            var fields := was.fields.(soldCount := was.fields.soldCount + quantity);
            && d.products == cat.products[p := was.(fields := fields, version := was.version + 1)]
            && d.log == cat.log + [ProductUpserted(p, was.store, fields, was.version + 1)])
  {
  }
}

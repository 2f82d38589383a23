/** The catalog database: stores, products, reviews, and what it consumes from commerce. Every write
    to a store or product bumps its version and appends the matching event to the log. */
module Catalog {
  import opened Prelude
  import opened Contracts
  import opened Ratings

  datatype Error = NotFound | Invalid | Conflict | Forbidden

  datatype Store = Store(
    seller: UserId, name: string, slug: string, rating: int, reviewCount: nat, totalProducts: int, version: nat)
  datatype Product = Product(store: StoreId, fields: ProductFields, stock: int, stockVersion: nat, version: nat)
  datatype Review = Review(product: ProductId, store: StoreId, buyer: UserId, rating: nat)

  datatype Cat = Cat(
    stores: map<StoreId, Store>,
    products: map<ProductId, Product>,
    reviews: seq<Review>,
    purchases: set<(UserId, ProductId)>,
    inbox: set<nat>,
    log: seq<CatalogEvent>)

  const EMPTY := Cat(map[], map[], [], {}, {}, [])

  function StoreEvent(s: StoreId, store: Store): CatalogEvent {
    StoreUpserted(s, store.seller, store.name, store.slug, store.version)
  }

  function ProductEvent(p: ProductId, product: Product): CatalogEvent {
    ProductUpserted(p, product.store, product.fields, product.version)
  }

  /** Writes a store's next version and announces it. */
  function PutStore(cat: Cat, s: StoreId, store: Store): Cat {
    cat.(stores := cat.stores[s := store], log := cat.log + [StoreEvent(s, store)])
  }

  function PutProduct(cat: Cat, p: ProductId, product: Product): Cat {
    cat.(products := cat.products[p := product], log := cat.log + [ProductEvent(p, product)])
  }

  predicate SellerHasStore(stores: map<StoreId, Store>, seller: UserId) {
    exists s :: s in stores && stores[s].seller == seller
  }

  predicate NameTaken(stores: map<StoreId, Store>, name: string, except: Option<StoreId>) {
    exists s :: s in stores && stores[s].name == name && Some(s) != except
  }

  function CreateStore(cat: Cat, s: StoreId, seller: UserId, name: string, slug: string): Result<Cat, Error> {
    if SellerHasStore(cat.stores, seller) || NameTaken(cat.stores, name, None) then Err(Conflict)
    else Ok(PutStore(cat, s, Store(seller, name, slug, 0, 0, 0, 1)))
  }

  function UpdateStore(cat: Cat, seller: UserId, s: StoreId, name: string, slug: string): Result<Cat, Error> {
    if s !in cat.stores || cat.stores[s].seller != seller then Err(NotFound)
    else if name != cat.stores[s].name && NameTaken(cat.stores, name, Some(s)) then Err(Conflict)
    else
      var store := cat.stores[s];
      Ok(PutStore(cat, s, store.(name := name, slug := slug, version := store.version + 1)))
  }

  function AdjustCount(cat: Cat, s: StoreId, delta: int): Cat {
    if s !in cat.stores then cat
    else
      var store := cat.stores[s];
      PutStore(cat, s, store.(totalProducts := store.totalProducts + delta, version := store.version + 1))
  }

  /** What a seller may write about a product; ratings and sales are not theirs to set. */
  datatype Draft = Draft(name: string, slug: string, description: Option<string>, price: int, imageKey: Option<string>)

  function CreateProduct(cat: Cat, seller: UserId, p: ProductId, s: StoreId, d: Draft): Result<Cat, Error> {
    if s !in cat.stores || cat.stores[s].seller != seller then Err(NotFound)
    else if d.price < 0 then Err(Invalid)
    else
      var fields := ProductFields(d.name, d.slug, d.description, d.price, d.imageKey, 0, 0, 0);
      Ok(AdjustCount(PutProduct(cat, p, Product(s, fields, 0, 0, 1)), s, 1))
  }

  predicate Owns(cat: Cat, seller: UserId, p: ProductId) {
    p in cat.products && cat.products[p].store in cat.stores && cat.stores[cat.products[p].store].seller == seller
  }

  function UpdateProduct(cat: Cat, seller: UserId, p: ProductId, d: Draft): Result<Cat, Error> {
    if !Owns(cat, seller, p) then Err(NotFound)
    else if d.price < 0 then Err(Invalid)
    else
      var product := cat.products[p];
      var fields := product.fields.(
        name := d.name, slug := d.slug, description := d.description, price := d.price, imageKey := d.imageKey);
      Ok(PutProduct(cat, p, product.(fields := fields, version := product.version + 1)))
  }

  /** The deletion is announced one version above the document removed. */
  function DeleteProduct(cat: Cat, seller: UserId, p: ProductId): Result<Cat, Error> {
    if !Owns(cat, seller, p) then Err(NotFound)
    else
      var product := cat.products[p];
      var removed := cat.(products := cat.products - {p}, log := cat.log + [ProductDeleted(p, product.version + 1)]);
      Ok(AdjustCount(removed, product.store, -1))
  }

  predicate Reviewed(reviews: seq<Review>, p: ProductId, buyer: UserId) {
    exists i :: 0 <= i < |reviews| && reviews[i].product == p && reviews[i].buyer == buyer
  }

  /** `productAverage` and `storeAverage` are the rounded averages the service computed. */
  function AddReview(cat: Cat, p: ProductId, buyer: UserId, rating: nat, productAverage: int, storeAverage: int)
    : Result<Cat, Error>
  {
    if (buyer, p) !in cat.purchases then Err(Forbidden)
    else if Reviewed(cat.reviews, p, buyer) then Err(Invalid)
    else if p !in cat.products then Err(NotFound)
    else
      var product := cat.products[p];
      var fields := product.fields.(rating := productAverage, reviewCount := product.fields.reviewCount + 1);
      var reviewed := cat.(reviews := cat.reviews + [Review(p, product.store, buyer, rating)]);
      var rated := PutProduct(reviewed, p, product.(fields := fields, version := product.version + 1));
      if product.store !in cat.stores then Ok(rated)
      else
        var store := cat.stores[product.store];
        Ok(PutStore(rated, product.store, store.(
          rating := storeAverage, reviewCount := store.reviewCount + 1, version := store.version + 1)))
  }

  /** The read model of commerce's stock: applied only when newer, and without a catalog event. */
  function ApplyStock(cat: Cat, p: ProductId, stock: int, version: nat): Cat {
    if p in cat.products && cat.products[p].stockVersion < version then
      cat.(products := cat.products[p := cat.products[p].(stock := stock, stockVersion := version)])
    else cat
  }

  function ApplySale(cat: Cat, buyer: UserId, item: SoldItem): Cat {
    if item.product.None? then cat
    else
      var p := item.product.value;
      var bought := cat.(purchases := cat.purchases + {(buyer, p)});
      if p !in cat.products then bought
      else
        var product := cat.products[p];
        PutProduct(bought, p, product.(
          fields := product.fields.(soldCount := product.fields.soldCount + item.quantity),
          version := product.version + 1))
  }

  function ApplySales(cat: Cat, buyer: UserId, items: seq<SoldItem>): Cat {
    if items == [] then cat
    else ApplySale(ApplySales(cat, buyer, items[..|items| - 1]), buyer, items[|items| - 1])
  }

  /** `id` is the envelope id; the inbox makes a redelivered completion do nothing. */
  function Consume(cat: Cat, id: nat, e: CommerceEvent): Cat {
    match e
    case InventoryChanged(p, stock, version) => ApplyStock(cat, p, stock, version)
    case OrderCompleted(_, buyer, items) =>
      if id in cat.inbox then cat else ApplySales(cat.(inbox := cat.inbox + {id}), buyer, items)
  }

  datatype Op =
    | DoCreateStore(store: StoreId, seller: UserId, name: string, slug: string)
    | DoUpdateStore(seller: UserId, store: StoreId, name: string, slug: string)
    | DoCreateProduct(seller: UserId, product: ProductId, store: StoreId, draft: Draft)
    | DoUpdateProduct(seller: UserId, product: ProductId, draft: Draft)
    | DoDeleteProduct(seller: UserId, product: ProductId)
    | DoReview(product: ProductId, buyer: UserId, rating: nat, productAverage: int, storeAverage: int)
    | DoConsume(id: nat, event: CommerceEvent)

  function Attempt(cat: Cat, op: Op): Result<Cat, Error> {
    match op
    case DoCreateStore(s, seller, name, slug) => CreateStore(cat, s, seller, name, slug)
    case DoUpdateStore(seller, s, name, slug) => UpdateStore(cat, seller, s, name, slug)
    case DoCreateProduct(seller, p, s, d) => CreateProduct(cat, seller, p, s, d)
    case DoUpdateProduct(seller, p, d) => UpdateProduct(cat, seller, p, d)
    case DoDeleteProduct(seller, p) => DeleteProduct(cat, seller, p)
    case DoReview(p, buyer, rating, pa, sa) => AddReview(cat, p, buyer, rating, pa, sa)
    case DoConsume(id, e) => Ok(Consume(cat, id, e))
  }

  function Step(cat: Cat, op: Op): Cat {
    var r := Attempt(cat, op);
    if r.Ok? then r.value else cat
  }

  function Run(cat: Cat, ops: seq<Op>): Cat {
    if ops == [] then cat else Step(Run(cat, ops[..|ops| - 1]), ops[|ops| - 1])
  }

  predicate Mentions(e: CatalogEvent, p: ProductId) {
    (e.ProductUpserted? || e.ProductDeleted?) && e.product == p
  }

  /** Ids are fresh UUIDs, a product's store is fixed at creation (`home`), a rating is one to five
      stars, and the averages are roundings of the new running averages. */
  ghost predicate Allowed(cat: Cat, op: Op, home: ProductId -> StoreId) {
    match op
    case DoCreateStore(s, _, _, _) => s !in cat.stores
    case DoCreateProduct(_, p, s, _) => s == home(p) && p !in cat.products && forall e :: e in cat.log ==> !Mentions(e, p)
    case DoReview(p, _, rating, pa, sa) =>
      && 1 <= rating <= 5
      && (p in cat.products ==>
            && Averaged(pa, cat.products[p].fields.rating, cat.products[p].fields.reviewCount, rating)
            && (cat.products[p].store in cat.stores ==>
                  var store := cat.stores[cat.products[p].store];
                  Averaged(sa, store.rating, store.reviewCount, rating)))
    case _ => true
  }

  ghost predicate AllAllowed(cat: Cat, ops: seq<Op>, home: ProductId -> StoreId) {
    forall k :: 0 <= k < |ops| ==> Allowed(Run(cat, ops[..k]), ops[k], home)
  }
}

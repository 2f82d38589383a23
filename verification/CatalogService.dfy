/** The catalog service as it runs: documents written in place, each change followed by its event. */
module CatalogService {
  import opened Prelude
  import opened Contracts
  import opened Ratings
  import opened Catalog
  import opened CatalogLog
  import CatalogReviews

  ghost predicate Committed(was: Cat, after: Cat, spec: Result<Cat, Error>, r: Result<(), Error>) {
    match spec
    case Ok(c) => r == Ok(()) && after == c
    case Err(e) => r == Err(e) && after == was
  }

  /** `toFixed(2)` in hundredths, rounding an exact half up. */
  function AddToAverage(average: int, count: nat, rating: nat): (r: int)
    ensures Averaged(r, average, count, rating)
  {
    var num, den := average * count + 100 * rating, count + 1;
    assert 2 * den > 0;
    HalfUpIsNearest(num, den);
    (2 * num + den) / (2 * den)
  }

  lemma HalfUpIsNearest(num: int, den: nat)
    requires den > 0
    ensures Nearest((2 * num + den) / (2 * den), num, den)
  {
    var q, r := (2 * num + den) / (2 * den), (2 * num + den) % (2 * den);
    assert 2 * num + den == q * (2 * den) + r;
    assert q * (2 * den) == 2 * (den * q);
  }

  class Database {
    var stores: map<StoreId, Store>
    var products: map<ProductId, Product>
    var reviews: seq<Review>
    var purchases: set<(UserId, ProductId)>
    var inbox: set<nat>
    var log: seq<CatalogEvent>

    function State(): Cat
      reads this
    {
      Cat(stores, products, reviews, purchases, inbox, log)
    }

    constructor ()
      ensures State() == EMPTY
    {
      stores, products, reviews, purchases, inbox, log := map[], map[], [], {}, {}, [];
    }

    // ----- documents: every update bumps the version by one -----

    method EnqueueStore(s: StoreId)
      requires s in stores
      modifies this`log
      ensures log == old(log) + [StoreEvent(s, stores[s])]
    {
      log := log + [StoreEvent(s, stores[s])];
    }

    method EnqueueProduct(p: ProductId)
      requires p in products
      modifies this`log
      ensures log == old(log) + [ProductEvent(p, products[p])]
    {
      log := log + [ProductEvent(p, products[p])];
    }

    method AdjustStoreProductCount(s: StoreId, delta: int) returns (found: bool)
      modifies this`stores
      ensures found <==> s in old(stores)
      ensures stores == if found then old(stores)[s := old(stores)[s].(
                          totalProducts := old(stores)[s].totalProducts + delta, version := old(stores)[s].version + 1)]
                        else old(stores)
    {
      if s !in stores {
        return false;
      }
      stores := stores[s := stores[s].(totalProducts := stores[s].totalProducts + delta, version := stores[s].version + 1)];
      return true;
    }

    // ----- stores -----

    method CreateStoreFor(s: StoreId, seller: UserId, name: string, slug: string) returns (r: Result<(), Error>)
      modifies this`stores, this`log
      ensures Committed(old(State()), State(), CreateStore(old(State()), s, seller, name, slug), r)
    {
      if exists t :: t in stores && stores[t].seller == seller {
        return Err(Conflict);
      }
      if NameTaken(stores, name, None) {
        return Err(Conflict);
      }
      stores := stores[s := Store(seller, name, slug, 0, 0, 0, 1)];
      EnqueueStore(s);
      return Ok(());
    }

    method UpdateStoreOf(seller: UserId, s: StoreId, name: string, slug: string) returns (r: Result<(), Error>)
      modifies this`stores, this`log
      ensures Committed(old(State()), State(), UpdateStore(old(State()), seller, s, name, slug), r)
    {
      if s !in stores || stores[s].seller != seller {
        return Err(NotFound);
      }
      if name != stores[s].name && NameTaken(stores, name, Some(s)) {
        return Err(Conflict);
      }
      stores := stores[s := stores[s].(name := name, slug := slug, version := stores[s].version + 1)];
      EnqueueStore(s);
      return Ok(());
    }

    // ----- products -----

    method CreateSellerProduct(seller: UserId, p: ProductId, s: StoreId, d: Draft) returns (r: Result<(), Error>)
      modifies this`products, this`stores, this`log
      ensures Committed(old(State()), State(), CreateProduct(old(State()), seller, p, s, d), r)
    {
      if s !in stores || stores[s].seller != seller {
        return Err(NotFound);
      }
      if d.price < 0 {
        return Err(Invalid);
      }
      var fields := ProductFields(d.name, d.slug, d.description, d.price, d.imageKey, 0, 0, 0);
      products := products[p := Product(s, fields, 0, 0, 1)];
      var found := AdjustStoreProductCount(s, 1);
      EnqueueProduct(p);
      if found {
        EnqueueStore(s);
      }
      return Ok(());
    }

    method UpdateSellerProduct(seller: UserId, p: ProductId, d: Draft) returns (r: Result<(), Error>)
      modifies this`products, this`log
      ensures Committed(old(State()), State(), UpdateProduct(old(State()), seller, p, d), r)
      ensures r.Ok? ==>
        && p in old(products) && products.Keys == old(products).Keys
        && (forall q :: q in products && q != p ==> products[q] == old(products)[q])
        && var was, now := old(products)[p], products[p];
        && now.version == was.version + 1 && now.store == was.store
        && now.stock == was.stock && now.stockVersion == was.stockVersion
        && now.fields == ProductFields(
             d.name, d.slug, d.description, d.price, d.imageKey, was.fields.rating, was.fields.reviewCount, was.fields.soldCount)
    {
      if !Owns(State(), seller, p) {
        return Err(NotFound);
      }
      if d.price < 0 {
        return Err(Invalid);
      }
      var fields := products[p].fields.(
        name := d.name, slug := d.slug, description := d.description, price := d.price, imageKey := d.imageKey);
      products := products[p := products[p].(fields := fields, version := products[p].version + 1)];
      EnqueueProduct(p);
      return Ok(());
    }

    method DeleteSellerProduct(seller: UserId, p: ProductId) returns (r: Result<(), Error>)
      modifies this`products, this`stores, this`log
      ensures Committed(old(State()), State(), DeleteProduct(old(State()), seller, p), r)
    {
      if !Owns(State(), seller, p) {
        return Err(NotFound);
      }
      var deleted := products[p];
      products := products - {p};
      var found := AdjustStoreProductCount(deleted.store, -1);
      log := log + [ProductDeleted(p, deleted.version + 1)];
      if found {
        EnqueueStore(deleted.store);
      }
      return Ok(());
    }

    // ----- reviews -----

    method SetProductRating(p: ProductId, rating: int, count: nat)
      requires p in products
      modifies this`products
      ensures products == old(products)[p := old(products)[p].(
        fields := old(products)[p].fields.(rating := rating, reviewCount := count), version := old(products)[p].version + 1)]
    {
      products := products[p := products[p].(
        fields := products[p].fields.(rating := rating, reviewCount := count), version := products[p].version + 1)];
    }

    method SetStoreRating(s: StoreId, rating: int, count: nat)
      requires s in stores
      modifies this`stores
      ensures stores == old(stores)[s := old(stores)[s].(
        rating := rating, reviewCount := count, version := old(stores)[s].version + 1)]
    {
      stores := stores[s := stores[s].(rating := rating, reviewCount := count, version := stores[s].version + 1)];
    }

    method CreateReview(buyer: UserId, p: ProductId, rating: nat) returns (r: Result<(), Error>)
      modifies this`reviews, this`products, this`stores, this`log
      ensures Committed(old(State()), State(), ReviewedNow(old(State()), buyer, p, rating), r)
    {
      if (buyer, p) !in purchases {
        return Err(Forbidden);
      }
      if Reviewed(reviews, p, buyer) {
        return Err(Invalid);
      }
      if p !in products {
        return Err(NotFound);
      }
      hide AddToAverage;
      var product := products[p];
      reviews := reviews + [Review(p, product.store, buyer, rating)];
      SetProductRating(p, AddToAverage(product.fields.rating, product.fields.reviewCount, rating), product.fields.reviewCount + 1);
      if product.store in stores {
        var store := stores[product.store];
        SetStoreRating(product.store, AddToAverage(store.rating, store.reviewCount, rating), store.reviewCount + 1);
        EnqueueProduct(p);
        EnqueueStore(product.store);
      } else {
        EnqueueProduct(p);
      }
      return Ok(());
    }

    // ----- what commerce announces -----

    method InventoryChangedHandler(p: ProductId, stock: int, version: nat)
      modifies this`products
      ensures State() == ApplyStock(old(State()), p, stock, version)
    {
      if p in products && products[p].stockVersion < version {
        products := products[p := products[p].(stock := stock, stockVersion := version)];
      }
    }

    /** Increments, so the inbox makes a redelivery do nothing. */
    method OrderCompletedHandler(id: nat, order: OrderId, buyer: UserId, items: seq<SoldItem>)
      modifies this`inbox, this`purchases, this`products, this`log
      ensures State() == Consume(old(State()), id, OrderCompleted(order, buyer, items))
    {
      hide ApplySale;
      if id in inbox {
        return;
      }
      inbox := inbox + {id};
      ghost var was := State();
      for i := 0 to |items|
        invariant State() == ApplySales(was, buyer, items[..i])
      {
        assert items[..i + 1][..i] == items[..i];
        CountSale(buyer, items[i]);
      }
      assert items[..|items|] == items;
    }

    method CountSale(buyer: UserId, item: SoldItem)
      modifies this`purchases, this`products, this`log
      ensures State() == ApplySale(old(State()), buyer, item)
    {
      if item.product.None? {
        return;
      }
      var p := item.product.value;
      purchases := purchases + {(buyer, p)};
      if p in products {
        products := products[p := products[p].(
          fields := products[p].fields.(soldCount := products[p].fields.soldCount + item.quantity),
          version := products[p].version + 1)];
        EnqueueProduct(p);
      }
    }

    // ----- any sequence of requests and deliveries -----

    method Serve(op: Op)
      modifies this
      ensures State() == Step(old(State()), Resolved(old(State()), op))
    {
      hide CreateStore, UpdateStore, CreateProduct, UpdateProduct, DeleteProduct, AddReview, ApplySales, AddToAverage;
      match op
      case DoCreateStore(s, seller, name, slug) => var _ := CreateStoreFor(s, seller, name, slug);
      case DoUpdateStore(seller, s, name, slug) => var _ := UpdateStoreOf(seller, s, name, slug);
      case DoCreateProduct(seller, p, s, d) => var _ := CreateSellerProduct(seller, p, s, d);
      case DoUpdateProduct(seller, p, d) => var _ := UpdateSellerProduct(seller, p, d);
      case DoDeleteProduct(seller, p) => var _ := DeleteSellerProduct(seller, p);
      case DoReview(p, buyer, rating, _, _) => var _ := CreateReview(buyer, p, rating);
      case DoConsume(id, InventoryChanged(p, stock, version)) => InventoryChangedHandler(p, stock, version);
      case DoConsume(id, OrderCompleted(order, buyer, items)) => OrderCompletedHandler(id, order, buyer, items);
    }

    /** Whatever sellers, reviewers and deliveries ask in whatever order, a service that started empty has
        a complete event log, and counts and averages that agree with its rows. */
    method ServeAll(ops: seq<Op>, ghost home: ProductId -> StoreId)
      requires State() == EMPTY
      requires forall k :: 0 <= k < |ops| ==> Acceptable(Run(EMPTY, Answered(ops[..k])), ops[k], home)
      modifies this
      ensures State() == Run(EMPTY, Answered(ops))
      ensures LogOk(State(), home) && CatalogReviews.ReviewsOk(State()) && CatalogReviews.CountsOk(State())
    {
      hide Step, Resolved, Acceptable, LogOk, CatalogReviews.ReviewsOk, CatalogReviews.CountsOk;
      for i := 0 to |ops|
        invariant State() == Run(EMPTY, Answered(ops[..i]))
      {
        assert ops[..i + 1][..i] == ops[..i];
        ghost var before := Answered(ops[..i]);
        assert Answered(ops[..i + 1])[..|before|] == before;
        Serve(ops[i]);
      }
      assert ops[..|ops|] == ops;
      hide Run;
      AnsweredIsAllowed(ops, home);
      EmptyLogOk(home);
      LogInvariant(EMPTY, Answered(ops), home);
      CatalogReviews.ReviewsInvariant(Answered(ops), home);
      CatalogReviews.CountsInvariant(Answered(ops), home);
    }
  }

  function ProductAverage(cat: Cat, p: ProductId, rating: nat): int {
    if p !in cat.products then 0
    else AddToAverage(cat.products[p].fields.rating, cat.products[p].fields.reviewCount, rating)
  }

  function StoreAverage(cat: Cat, p: ProductId, rating: nat): int {
    if p !in cat.products || cat.products[p].store !in cat.stores then 0
    else
      var store := cat.stores[cat.products[p].store];
      AddToAverage(store.rating, store.reviewCount, rating)
  }

  /** A review with the averages the service computes; `AddReview` allows either way of a tie. */
  function ReviewedNow(cat: Cat, buyer: UserId, p: ProductId, rating: nat): Result<Cat, Error> {
    AddReview(cat, p, buyer, rating, ProductAverage(cat, p, rating), StoreAverage(cat, p, rating))
  }

  /** A request as the service answers it: the averages of a review are its own. */
  function Resolved(cat: Cat, op: Op): Op {
    if op.DoReview? then
      op.(productAverage := ProductAverage(cat, op.product, op.rating), storeAverage := StoreAverage(cat, op.product, op.rating))
    else op
  }

  function Answered(ops: seq<Op>): seq<Op> {
    if ops == [] then []
    else
      var init := Answered(ops[..|ops| - 1]);
      init + [Resolved(Run(EMPTY, init), ops[|ops| - 1])]
  }

  /** Fresh ids, products of their own store, ratings of one to five; nothing about averages. */
  ghost predicate Acceptable(cat: Cat, op: Op, home: ProductId -> StoreId) {
    if op.DoReview? then 1 <= op.rating <= 5 else Allowed(cat, op, home)
  }

  lemma ResolvedIsAllowed(cat: Cat, op: Op, home: ProductId -> StoreId)
    requires Acceptable(cat, op, home)
    ensures Allowed(cat, Resolved(cat, op), home)
  {
    hide Averaged;
  }

  lemma {:induction false} AnsweredIsAllowed(ops: seq<Op>, home: ProductId -> StoreId)
    requires forall k :: 0 <= k < |ops| ==> Acceptable(Run(EMPTY, Answered(ops[..k])), ops[k], home)
    ensures |Answered(ops)| == |ops| && AllAllowed(EMPTY, Answered(ops), home)
  {
    hide Run, Resolved, Allowed, Acceptable;
    if ops != [] {
      var init := ops[..|ops| - 1];
      forall k | 0 <= k < |init| ensures Acceptable(Run(EMPTY, Answered(init[..k])), init[k], home) {
        assert init[..k] == ops[..k];
      }
      AnsweredIsAllowed(init, home);
      ResolvedIsAllowed(Run(EMPTY, Answered(init)), ops[|init|], home);
      var all := Answered(ops);
      forall k | 0 <= k < |all| ensures Allowed(Run(EMPTY, all[..k]), all[k], home) {
        if k < |init| {
          assert all[..k] == Answered(init)[..k] && all[k] == Answered(init)[k];
        } else {
          assert all[..k] == Answered(init);
        }
      }
    }
  }

  /** So every review the service accepts is one the invariants of the catalog's runs cover. */
  lemma ReviewIsAllowed(cat: Cat, buyer: UserId, p: ProductId, rating: nat, home: ProductId -> StoreId)
    requires 1 <= rating <= 5
    ensures exists pa, sa ::
      && Allowed(cat, DoReview(p, buyer, rating, pa, sa), home)
      && ReviewedNow(cat, buyer, p, rating) == Attempt(cat, DoReview(p, buyer, rating, pa, sa))
  {
    hide Averaged, ProductAverage, StoreAverage;
    var pa, sa := ProductAverage(cat, p, rating), StoreAverage(cat, p, rating);
    ResolvedIsAllowed(cat, DoReview(p, buyer, rating, 0, 0), home);
    assert Allowed(cat, DoReview(p, buyer, rating, pa, sa), home);
    assert ReviewedNow(cat, buyer, p, rating) == Attempt(cat, DoReview(p, buyer, rating, pa, sa));
  }
}

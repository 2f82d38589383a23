/** Ratings, review counts and product counts agree with the rows they summarise, over every run. */
module CatalogReviews {
  import opened Prelude
  import opened Contracts
  import opened Ratings
  import opened Catalog
  import opened CatalogLog
  import CatalogSales

  function RatingsOf(reviews: seq<Review>, p: ProductId): seq<nat> {
    if reviews == [] then []
    else
      var init, last := RatingsOf(reviews[..|reviews| - 1], p), reviews[|reviews| - 1];
      if last.product == p then init + [last.rating] else init
  }

  function StoreRatings(reviews: seq<Review>, s: StoreId): seq<nat> {
    if reviews == [] then []
    else
      var init, last := StoreRatings(reviews[..|reviews| - 1], s), reviews[|reviews| - 1];
      if last.store == s then init + [last.rating] else init
  }

  ghost predicate Rated(count: nat, average: int, ratings: seq<nat>) { count == |ratings| && Tracks(average, ratings) }

  ghost predicate ProductRated(cat: Cat, p: ProductId) {
    p in cat.products ==>
      Rated(cat.products[p].fields.reviewCount, cat.products[p].fields.rating, RatingsOf(cat.reviews, p))
  }

  ghost predicate StoreRated(cat: Cat, s: StoreId) {
    s in cat.stores ==> Rated(cat.stores[s].reviewCount, cat.stores[s].rating, StoreRatings(cat.reviews, s))
  }

  /** A review is of a product catalog has announced, by someone who bought it, at most one each. */
  ghost predicate ReviewOk(cat: Cat, i: nat)
    requires i < |cat.reviews|
  {
    var r := cat.reviews[i];
    && r.store in cat.stores
    && (exists e :: e in cat.log && Mentions(e, r.product))
    && (r.buyer, r.product) in cat.purchases
    && (forall j :: 0 <= j < i ==> cat.reviews[j].product != r.product || cat.reviews[j].buyer != r.buyer)
  }

  ghost predicate ReviewsOk(cat: Cat) {
    && (forall p :: ProductRated(cat, p))
    && (forall s :: StoreRated(cat, s))
    && (forall i :: 0 <= i < |cat.reviews| ==> ReviewOk(cat, i))
  }

  lemma {:induction false} Unreviewed(reviews: seq<Review>, p: ProductId)
    requires forall i :: 0 <= i < |reviews| ==> reviews[i].product != p
    ensures RatingsOf(reviews, p) == []
  {
    if reviews != [] {
      Unreviewed(reviews[..|reviews| - 1], p);
    }
  }

  lemma {:induction false} UnreviewedStore(reviews: seq<Review>, s: StoreId)
    requires forall i :: 0 <= i < |reviews| ==> reviews[i].store != s
    ensures StoreRatings(reviews, s) == []
  {
    if reviews != [] {
      UnreviewedStore(reviews[..|reviews| - 1], s);
    }
  }

  lemma RatingsAppend(reviews: seq<Review>, r: Review, p: ProductId, s: StoreId)
    ensures RatingsOf(reviews + [r], p) == if r.product == p then RatingsOf(reviews, p) + [r.rating] else RatingsOf(reviews, p)
    ensures StoreRatings(reviews + [r], s) == if r.store == s then StoreRatings(reviews, s) + [r.rating] else StoreRatings(reviews, s)
  {
    assert (reviews + [r])[..|reviews|] == reviews;
  }

  /** What the other operations leave alone. */
  ghost predicate SameSummaries(cat: Cat, d: Cat) {
    && d.reviews == cat.reviews
    && (forall s :: s in cat.stores ==> s in d.stores)
    && (forall e :: e in cat.log ==> e in d.log)
    && cat.purchases <= d.purchases
    && (forall p :: p in cat.products && p in d.products ==>
          && d.products[p].fields.reviewCount == cat.products[p].fields.reviewCount
          && d.products[p].fields.rating == cat.products[p].fields.rating)
    && (forall s :: s in cat.stores && s in d.stores ==>
          && d.stores[s].reviewCount == cat.stores[s].reviewCount
          && d.stores[s].rating == cat.stores[s].rating)
    && (forall p :: p in d.products && p !in cat.products ==>
          && d.products[p].fields.reviewCount == 0 && d.products[p].fields.rating == 0
          && forall e :: e in cat.log ==> !Mentions(e, p))
    && (forall s :: s in d.stores && s !in cat.stores ==> d.stores[s].reviewCount == 0 && d.stores[s].rating == 0)
  }

  lemma SummariesKept(cat: Cat, d: Cat)
    requires ReviewsOk(cat) && SameSummaries(cat, d)
    ensures ReviewsOk(d)
  {
    hide Tracks, Mentions;
    forall p ensures ProductRated(d, p) {
      assert ProductRated(cat, p);
      if p in d.products && p !in cat.products {
        forall i | 0 <= i < |cat.reviews| ensures cat.reviews[i].product != p {
          assert ReviewOk(cat, i);
        }
        Unreviewed(cat.reviews, p);
        NothingTracked();
      }
    }
    forall s ensures StoreRated(d, s) {
      assert StoreRated(cat, s);
      if s in d.stores && s !in cat.stores {
        forall i | 0 <= i < |cat.reviews| ensures cat.reviews[i].store != s {
          assert ReviewOk(cat, i);
        }
        UnreviewedStore(cat.reviews, s);
        NothingTracked();
      }
    }
    forall i | 0 <= i < |d.reviews| ensures ReviewOk(d, i) {
      assert ReviewOk(cat, i);
    }
  }

  lemma NothingTracked()
    ensures Tracks(0, [])
  {
  }

  lemma OtherOpsKeepSummaries(cat: Cat, op: Op, home: ProductId -> StoreId)
    requires Allowed(cat, op, home) && !op.DoReview? && !op.DoConsume?
    ensures SameSummaries(cat, Step(cat, op))
  {
    hide ApplySales, Averaged, Mentions;
  }

  lemma ConsumeKeepsSummaries(cat: Cat, id: nat, e: CommerceEvent)
    ensures SameSummaries(cat, Consume(cat, id, e))
  {
    hide ApplySales, Mentions;
    var d := Consume(cat, id, e);
    ConsumeExtendsLog(cat, id, e);
    if e.OrderCompleted? {
      var inboxed := cat.(inbox := cat.inbox + {id});
      SalesKeepPurchases(inboxed, e.buyer, e.items);
      forall p | p in cat.products
        ensures p in d.products && d.products[p].fields.reviewCount == cat.products[p].fields.reviewCount
          && d.products[p].fields.rating == cat.products[p].fields.rating
      {
        CatalogSales.SalesAdd(inboxed, e.buyer, e.items, p);
      }
      CatalogSales.SalesAdd(inboxed, e.buyer, e.items, 0);
    }
  }

  lemma {:induction false} SalesKeepPurchases(cat: Cat, buyer: UserId, items: seq<SoldItem>)
    ensures cat.purchases <= ApplySales(cat, buyer, items).purchases
  {
    if items != [] {
      SalesKeepPurchases(cat, buyer, items[..|items| - 1]);
    }
  }

  /** The effect of one review. */
  ghost predicate ReviewAdded(cat: Cat, d: Cat, r: Review, pa: int, sa: int) {
    && r.product in cat.products && r.store in cat.stores
    && d.reviews == cat.reviews + [r]
    && d.products.Keys == cat.products.Keys && d.stores.Keys == cat.stores.Keys && d.purchases == cat.purchases
    && (forall e :: e in cat.log ==> e in d.log)
    && (exists e :: e in d.log && Mentions(e, r.product))
    && d.products[r.product].fields.reviewCount == cat.products[r.product].fields.reviewCount + 1
    && d.products[r.product].fields.rating == pa
    && d.stores[r.store].reviewCount == cat.stores[r.store].reviewCount + 1
    && d.stores[r.store].rating == sa
    && (forall q :: q in cat.products && q != r.product ==> d.products[q] == cat.products[q])
    && (forall t :: t in cat.stores && t != r.store ==> d.stores[t] == cat.stores[t])
  }

  lemma ReviewEffect(cat: Cat, p: ProductId, buyer: UserId, rating: nat, pa: int, sa: int)
    requires AddReview(cat, p, buyer, rating, pa, sa).Ok? && cat.products[p].store in cat.stores
    ensures ReviewAdded(cat, AddReview(cat, p, buyer, rating, pa, sa).value, Review(p, cat.products[p].store, buyer, rating), pa, sa)
  {
    var d := AddReview(cat, p, buyer, rating, pa, sa).value;
    assert ProductEvent(p, d.products[p]) in d.log && Mentions(ProductEvent(p, d.products[p]), p);
  }

  lemma ReviewKeepsRatings(cat: Cat, d: Cat, r: Review, pa: int, sa: int, q: ProductId, t: StoreId)
    requires ProductRated(cat, q) && StoreRated(cat, t) && ReviewAdded(cat, d, r, pa, sa) && 1 <= r.rating <= 5
    requires Averaged(pa, cat.products[r.product].fields.rating, cat.products[r.product].fields.reviewCount, r.rating)
    requires Averaged(sa, cat.stores[r.store].rating, cat.stores[r.store].reviewCount, r.rating)
    ensures ProductRated(d, q) && StoreRated(d, t)
  {
    hide Tracks, Averaged, RatingsOf, StoreRatings, Mentions;
    RatingsAppend(cat.reviews, r, q, t);
    if q == r.product {
      ReviewKeepsTrack(pa, cat.products[q].fields.rating, RatingsOf(cat.reviews, q), r.rating);
    }
    if t == r.store {
      ReviewKeepsTrack(sa, cat.stores[t].rating, StoreRatings(cat.reviews, t), r.rating);
    }
  }

  lemma ReviewKeepsRows(cat: Cat, d: Cat, r: Review, pa: int, sa: int, i: nat)
    requires ReviewAdded(cat, d, r, pa, sa) && i < |d.reviews| && (i < |cat.reviews| ==> ReviewOk(cat, i))
    requires (r.buyer, r.product) in cat.purchases && !Reviewed(cat.reviews, r.product, r.buyer)
    ensures ReviewOk(d, i)
  {
  }

  lemma ReviewKeepsReviews(cat: Cat, p: ProductId, buyer: UserId, rating: nat, pa: int, sa: int, home: ProductId -> StoreId)
    requires ReviewsOk(cat) && LogOk(cat, home) && Allowed(cat, DoReview(p, buyer, rating, pa, sa), home)
    requires AddReview(cat, p, buyer, rating, pa, sa).Ok?
    ensures ReviewsOk(AddReview(cat, p, buyer, rating, pa, sa).value)
  {
    hide LogOk, Averaged, ProductRated, StoreRated, ReviewOk, Reviewed, ReviewAdded;
    ProductAtHome(cat, p, home);
    ReviewEffect(cat, p, buyer, rating, pa, sa);
    var d, r := AddReview(cat, p, buyer, rating, pa, sa).value, Review(p, cat.products[p].store, buyer, rating);
    assert (buyer, p) in cat.purchases && !Reviewed(cat.reviews, p, buyer);
    hide AddReview;
    forall q ensures ProductRated(d, q) {
      ReviewKeepsRatings(cat, d, r, pa, sa, q, r.store);
    }
    forall t ensures StoreRated(d, t) {
      ReviewKeepsRatings(cat, d, r, pa, sa, p, t);
    }
    forall i | 0 <= i < |d.reviews| ensures ReviewOk(d, i) {
      ReviewCount(cat, d, r, pa, sa);
      ReviewKeepsRows(cat, d, r, pa, sa, i);
    }
  }

  lemma ReviewCount(cat: Cat, d: Cat, r: Review, pa: int, sa: int)
    requires ReviewAdded(cat, d, r, pa, sa)
    ensures |d.reviews| == |cat.reviews| + 1
  {
  }

  /** In every reachable state each review count is the number of review rows, each by a distinct
      buyer of the product, and each stored average tracks exactly those ratings. */
  lemma {:induction false} ReviewsInvariant(ops: seq<Op>, home: ProductId -> StoreId)
    requires AllAllowed(EMPTY, ops, home)
    ensures ReviewsOk(Run(EMPTY, ops))
  {
    hide LogOk, Step, Allowed;
    if ops != [] {
      hide ReviewsOk;
      var init := ops[..|ops| - 1];
      var cat, op := Run(EMPTY, init), ops[|ops| - 1];
      CatalogSales.Shorter(EMPTY, ops, 0, [], home);
      ReviewsInvariant(init, home);
      EmptyLogOk(home);
      LogInvariant(EMPTY, init, home);
      StepKeepsReviews(cat, op, home);
    }
  }

  lemma StepKeepsReviews(cat: Cat, op: Op, home: ProductId -> StoreId)
    requires ReviewsOk(cat) && LogOk(cat, home) && Allowed(cat, op, home)
    ensures ReviewsOk(Step(cat, op))
  {
    hide ReviewsOk, LogOk, Allowed, AddReview, Consume, SameSummaries;
    if op.DoReview? {
      if AddReview(cat, op.product, op.buyer, op.rating, op.productAverage, op.storeAverage).Ok? {
        ReviewKeepsReviews(cat, op.product, op.buyer, op.rating, op.productAverage, op.storeAverage, home);
      }
    } else {
      if op.DoConsume? {
        ConsumeKeepsSummaries(cat, op.id, op.event);
      } else {
        OtherOpsKeepSummaries(cat, op, home);
      }
      hide Step;
      SummariesKept(cat, Step(cat, op));
    }
  }

  // ----- product counts -----

  function ProductsOf(products: map<ProductId, Product>, s: StoreId): set<ProductId> {
    set p | p in products && products[p].store == s
  }

  ghost predicate CountsOk(cat: Cat) {
    forall s :: s in cat.stores ==> cat.stores[s].totalProducts == |ProductsOf(cat.products, s)|
  }

  /** The same products in the same stores, and counts that did not move. */
  ghost predicate SameCounts(cat: Cat, d: Cat) {
    && d.products.Keys == cat.products.Keys
    && (forall p :: p in cat.products ==> d.products[p].store == cat.products[p].store)
    && d.stores.Keys == cat.stores.Keys
    && (forall s :: s in cat.stores ==> d.stores[s].totalProducts == cat.stores[s].totalProducts)
  }

  lemma SameCountsKept(cat: Cat, d: Cat)
    requires CountsOk(cat) && SameCounts(cat, d)
    ensures CountsOk(d)
  {
    forall s | s in d.stores ensures d.stores[s].totalProducts == |ProductsOf(d.products, s)| {
      assert ProductsOf(d.products, s) == ProductsOf(cat.products, s);
    }
  }

  lemma OneMore(products: map<ProductId, Product>, p: ProductId, product: Product, t: StoreId)
    requires p !in products
    ensures |ProductsOf(products[p := product], t)| == |ProductsOf(products, t)| + if product.store == t then 1 else 0
  {
    if product.store == t {
      assert ProductsOf(products[p := product], t) == ProductsOf(products, t) + {p};
    } else {
      assert ProductsOf(products[p := product], t) == ProductsOf(products, t);
    }
  }

  lemma CreateKeepsCounts(cat: Cat, seller: UserId, p: ProductId, s: StoreId, d: Draft)
    requires CountsOk(cat) && p !in cat.products && CreateProduct(cat, seller, p, s, d).Ok?
    ensures CountsOk(CreateProduct(cat, seller, p, s, d).value)
  {
    var after := CreateProduct(cat, seller, p, s, d).value;
    var product := after.products[p];
    assert after.products == cat.products[p := product] && product.store == s && after.stores.Keys == cat.stores.Keys;
    assert forall t :: t in cat.stores ==>
      after.stores[t].totalProducts == cat.stores[t].totalProducts + if t == s then 1 else 0;
    hide CreateProduct;
    forall t | t in after.stores ensures after.stores[t].totalProducts == |ProductsOf(after.products, t)| {
      OneMore(cat.products, p, product, t);
    }
  }

  lemma DeleteKeepsCounts(cat: Cat, seller: UserId, p: ProductId)
    requires CountsOk(cat) && DeleteProduct(cat, seller, p).Ok?
    ensures CountsOk(DeleteProduct(cat, seller, p).value)
  {
    var after, s := DeleteProduct(cat, seller, p).value, cat.products[p].store;
    forall t | t in after.stores ensures after.stores[t].totalProducts == |ProductsOf(after.products, t)| {
      assert ProductsOf(after.products, t) == ProductsOf(cat.products, t) - if t == s then {p} else {};
    }
  }

  lemma NewStoreKeepsCounts(cat: Cat, s: StoreId, seller: UserId, name: string, slug: string, home: ProductId -> StoreId)
    requires CountsOk(cat) && LogOk(cat, home) && s !in cat.stores
    ensures CountsOk(PutStore(cat, s, Store(seller, name, slug, 0, 0, 0, 1)))
  {
    forall p | p in cat.products ensures cat.products[p].store != s {
      ProductAtHome(cat, p, home);
    }
    assert ProductsOf(cat.products, s) == {};
  }

  lemma OtherOpsKeepCounts(cat: Cat, op: Op)
    requires CountsOk(cat)
    requires op.DoUpdateStore? || op.DoUpdateProduct? || op.DoReview? || op.DoConsume?
    ensures CountsOk(Step(cat, op))
  {
    hide ApplySales, CountsOk;
    if op.DoConsume? && op.event.OrderCompleted? {
      var inboxed := cat.(inbox := cat.inbox + {op.id});
      CatalogSales.SalesAdd(inboxed, op.event.buyer, op.event.items, 0);
      forall p | p in cat.products ensures ApplySales(inboxed, op.event.buyer, op.event.items).products[p].store == cat.products[p].store {
        CatalogSales.SalesAdd(inboxed, op.event.buyer, op.event.items, p);
      }
    }
    SameCountsKept(cat, Step(cat, op));
  }

  lemma StepKeepsCounts(cat: Cat, op: Op, home: ProductId -> StoreId)
    requires CountsOk(cat) && LogOk(cat, home) && Allowed(cat, op, home)
    ensures CountsOk(Step(cat, op))
  {
    hide CountsOk, LogOk, CreateProduct, DeleteProduct, UpdateProduct, AddReview, Consume;
    match op
    case DoCreateStore(s, seller, name, slug) => NewStoreKeepsCounts(cat, s, seller, name, slug, home);
    case DoCreateProduct(seller, p, s, d) =>
      if CreateProduct(cat, seller, p, s, d).Ok? {
        CreateKeepsCounts(cat, seller, p, s, d);
      }
    case DoDeleteProduct(seller, p) =>
      if DeleteProduct(cat, seller, p).Ok? {
        DeleteKeepsCounts(cat, seller, p);
      }
    case _ => OtherOpsKeepCounts(cat, op);
  }

  /** In every reachable state a store's product count is the number of its products. */
  lemma {:induction false} CountsInvariant(ops: seq<Op>, home: ProductId -> StoreId)
    requires AllAllowed(EMPTY, ops, home)
    ensures CountsOk(Run(EMPTY, ops))
  {
    hide LogOk, Step, Allowed;
    if ops != [] {
      hide CountsOk;
      var init := ops[..|ops| - 1];
      CatalogSales.Shorter(EMPTY, ops, 0, [], home);
      CountsInvariant(init, home);
      EmptyLogOk(home);
      LogInvariant(EMPTY, init, home);
      StepKeepsCounts(Run(EMPTY, init), ops[|ops| - 1], home);
    }
  }
}

/** The search index follows the catalog's events, and converges under any delivery. */
module Search {
  import opened Prelude
  import opened Contracts
  import opened Catalog
  import opened CatalogLog

  /** The fields search keeps of a product: no price, stock or image. */
  datatype Indexed = Indexed(
    name: string, slug: string, description: Option<string>, rating: int, reviewCount: nat, soldCount: int)

  function IndexedOf(f: ProductFields): Indexed {
    Indexed(f.name, f.slug, f.description, f.rating, f.reviewCount, f.soldCount)
  }

  datatype StoreDoc = StoreDoc(name: string, slug: string, version: nat)

  datatype Body = Body(store: StoreId, fields: Indexed, storeName: string, storeSlug: string, storeVersion: nat)

  /** A deletion writes only version and flag; a document deleted before it was indexed has no body. */
  datatype Doc = Doc(version: nat, deleted: bool, body: Option<Body>)

  type Index = map<ProductId, Doc>

  // ----- the handlers -----

  function Merge(index: Index, p: ProductId, doc: Doc): Doc {
    if doc.body.None? && p in index then doc.(body := index[p].body) else doc
  }

  /** The scripted upsert: a noop unless the document is missing or older. */
  function Guarded(index: Index, p: ProductId, doc: Doc): Index {
    if p in index && index[p].version >= doc.version then index else index[p := Merge(index, p, doc)]
  }

  function GuardedStore(stores: map<StoreId, StoreDoc>, s: StoreId, doc: StoreDoc): map<StoreId, StoreDoc> {
    if s in stores && stores[s].version >= doc.version then stores else stores[s := doc]
  }

  function UpsertDoc(p: ProductId, s: StoreId, f: ProductFields, version: nat, store: StoreDoc): Doc {
    Doc(version, false, Some(Body(s, IndexedOf(f), store.name, store.slug, store.version)))
  }

  predicate Stale(doc: Doc, s: StoreId, version: nat) {
    doc.body.Some? && doc.body.value.store == s && doc.body.value.storeVersion < version
  }

  function Renamed(doc: Doc, store: StoreDoc): Doc
    requires doc.body.Some?
  {
    doc.(body := Some(doc.body.value.(storeName := store.name, storeSlug := store.slug, storeVersion := store.version)))
  }

  /** The update-by-query, reaching only the documents in `reached`. */
  function Rename(index: Index, s: StoreId, store: StoreDoc, reached: set<ProductId>): Index {
    map p | p in index ::
      if p in reached && Stale(index[p], s, store.version) then Renamed(index[p], store) else index[p]
  }

  /** How an attempt at an event ends: handled and acked; refused before any write; or interrupted
      after writing, for a store event with only some of its products renamed. */
  datatype Outcome = Handled | Refused | Interrupted(reached: set<ProductId>)

  datatype Indices = Indices(index: Index, stores: map<StoreId, StoreDoc>)

  /** A product event needs its store's document; without it the attempt fails and is retried. */
  predicate Ready(x: Indices, e: CatalogEvent) { e.ProductUpserted? ==> e.store in x.stores }

  function Attempted(x: Indices, e: CatalogEvent, outcome: Outcome): Indices {
    if outcome.Refused? || !Ready(x, e) then x
    else
      match e
      case ProductUpserted(p, s, f, version) =>
        x.(index := Guarded(x.index, p, UpsertDoc(p, s, f, version, x.stores[s])))
      case ProductDeleted(p, version) => x.(index := Guarded(x.index, p, Doc(version, true, None)))
      case StoreUpserted(s, _, name, slug, version) =>
        var store := StoreDoc(name, slug, version);
        Indices(
          Rename(x.index, s, store, if outcome.Handled? then x.index.Keys else outcome.reached),
          GuardedStore(x.stores, s, store))
  }

  predicate Succeeds(x: Indices, e: CatalogEvent, outcome: Outcome) { outcome.Handled? && Ready(x, e) }

  // ----- what the indices owe to the log and to the events already handled -----

  ghost predicate NameLogged(log: seq<CatalogEvent>, s: StoreId, name: string, slug: string, version: nat) {
    exists e :: e in log && e.StoreUpserted? && e.store == s
      && e.storeName == name && e.storeSlug == slug && e.version == version
  }

  /** Search's copy of a product's fields is right, one by one. */
  predicate Copies(copy: Indexed, f: ProductFields) {
    && copy.name == f.name && copy.slug == f.slug && copy.description == f.description
    && copy.rating == f.rating && copy.reviewCount == f.reviewCount && copy.soldCount == f.soldCount
  }

  ghost predicate UpsertLogged(log: seq<CatalogEvent>, p: ProductId, s: StoreId, fields: Indexed, version: nat) {
    exists e :: e in log && e.ProductUpserted? && e.product == p && e.store == s
      && Copies(fields, e.fields) && e.version == version
  }

  ghost predicate DocLogged(log: seq<CatalogEvent>, p: ProductId, doc: Doc) {
    && (if doc.deleted then ProductDeleted(p, doc.version) in log
        else doc.body.Some? && UpsertLogged(log, p, doc.body.value.store, doc.body.value.fields, doc.version))
    && (doc.body.Some? ==>
          var b := doc.body.value;
          NameLogged(log, b.store, b.storeName, b.storeSlug, b.storeVersion))
  }

  ghost predicate DeletionDone(done: set<CatalogEvent>, p: ProductId) {
    exists e :: e in done && e.ProductDeleted? && e.product == p
  }

  /** A handled product event is reflected, or its product is deleted in catalog. */
  ghost predicate ProductCovered(index: Index, log: seq<CatalogEvent>, e: CatalogEvent)
    requires e.ProductUpserted? || e.ProductDeleted?
  {
    || (e.product in index && index[e.product].version >= e.version)
    || DeletionLogged(log, e.product)
  }

  ghost predicate StoreCovered(x: Indices, e: CatalogEvent)
    requires e.StoreUpserted?
  {
    && e.store in x.stores && x.stores[e.store].version >= e.version
    && forall p :: p in x.index ==> !Stale(x.index[p], e.store, e.version)
  }

  ghost predicate Logged(log: seq<CatalogEvent>, x: Indices) {
    && (forall s :: s in x.stores ==> NameLogged(log, s, x.stores[s].name, x.stores[s].slug, x.stores[s].version))
    && (forall p :: p in x.index ==> DocLogged(log, p, x.index[p]))
  }

  ghost predicate Covered(log: seq<CatalogEvent>, x: Indices, done: set<CatalogEvent>) {
    forall e :: e in done ==>
      if e.StoreUpserted? then StoreCovered(x, e) else ProductCovered(x.index, log, e)
  }

  ghost predicate InSync(log: seq<CatalogEvent>, x: Indices, done: set<CatalogEvent>) {
    (forall e :: e in done ==> e in log) && Logged(log, x) && Covered(log, x, done)
  }

  /** A delivery that cannot bring back a deleted product: an upsert is not safe if its product's deletion
      was handled and a rebuild has since left the product out of the index, tombstone and all. */
  ghost predicate Safe(x: Indices, done: set<CatalogEvent>, e: CatalogEvent) {
    e.ProductUpserted? && DeletionDone(done, e.product) ==> e.product in x.index
  }

  // ----- deliveries -----

  lemma GrowingLogKeepsSync(log: seq<CatalogEvent>, more: seq<CatalogEvent>, x: Indices, done: set<CatalogEvent>)
    requires InSync(log, x, done) && forall e :: e in log ==> e in more
    ensures InSync(more, x, done)
  {
    forall p | p in x.index ensures DocLogged(more, p, x.index[p]) {
      assert DocLogged(log, p, x.index[p]);
    }
    forall p ensures DeletionLogged(log, p) ==> DeletionLogged(more, p) {
    }
    forall e | e in done ensures if e.StoreUpserted? then StoreCovered(x, e) else ProductCovered(x.index, more, e) {
    }
  }

  /** Writing a newer logged document over one product. */
  lemma WriteKeepsLogged(log: seq<CatalogEvent>, x: Indices, p: ProductId, doc: Doc)
    requires Logged(log, x) && DocLogged(log, p, doc)
    ensures Logged(log, x.(index := Guarded(x.index, p, doc)))
  {
    if p in x.index {
      assert DocLogged(log, p, x.index[p]);
    }
  }

  lemma ProductAttemptLogged(log: seq<CatalogEvent>, x: Indices, e: CatalogEvent, outcome: Outcome)
    requires Logged(log, x) && e in log && !e.StoreUpserted?
    ensures Logged(log, Attempted(x, e, outcome))
  {
    if !outcome.Refused? && Ready(x, e) {
      match e
      case ProductUpserted(p, s, f, version) =>
        var doc := UpsertDoc(p, s, f, version, x.stores[s]);
        assert UpsertLogged(log, p, s, IndexedOf(f), version);
        WriteKeepsLogged(log, x, p, doc);
      case ProductDeleted(p, version) =>
        WriteKeepsLogged(log, x, p, Doc(version, true, None));
    }
  }

  lemma ProductAttemptKeepsStores(x: Indices, e: CatalogEvent, outcome: Outcome, f: CatalogEvent)
    requires !e.StoreUpserted? && f.StoreUpserted? && StoreCovered(x, f)
    ensures StoreCovered(Attempted(x, e, outcome), f)
  {
  }

  lemma ProductAttemptCovers(log: seq<CatalogEvent>, x: Indices, e: CatalogEvent, outcome: Outcome, f: CatalogEvent)
    requires e in log && !e.StoreUpserted? && !f.StoreUpserted?
    requires (f == e && Succeeds(x, e, outcome)) || ProductCovered(x.index, log, f)
    ensures ProductCovered(Attempted(x, e, outcome).index, log, f)
  {
    if e.ProductDeleted? && e.product == f.product {
      assert DeletionLogged(log, f.product);
    }
  }

  lemma RenameKeepsLogged(log: seq<CatalogEvent>, x: Indices, e: CatalogEvent, outcome: Outcome)
    requires Logged(log, x) && e in log && e.StoreUpserted?
    ensures Logged(log, Attempted(x, e, outcome))
  {
    var y := Attempted(x, e, outcome);
    assert NameLogged(log, e.store, e.storeName, e.storeSlug, e.version);
    forall p | p in y.index ensures DocLogged(log, p, y.index[p]) {
      assert DocLogged(log, p, x.index[p]);
    }
  }

  lemma RenameCovers(log: seq<CatalogEvent>, x: Indices, e: CatalogEvent, outcome: Outcome, f: CatalogEvent)
    requires e.StoreUpserted?
    requires (f == e && Succeeds(x, e, outcome))
      || (if f.StoreUpserted? then StoreCovered(x, f) else ProductCovered(x.index, log, f))
    ensures
      var y := Attempted(x, e, outcome);
      if f.StoreUpserted? then StoreCovered(y, f) else ProductCovered(y.index, log, f)
  {
  }

  /** Any attempt at any logged event - first, repeated, late, refused or cut short, including a store
      rename that reached only some products - keeps the indices in sync. */
  lemma AttemptKeepsSync(log: seq<CatalogEvent>, x: Indices, done: set<CatalogEvent>, e: CatalogEvent, outcome: Outcome)
    requires InSync(log, x, done) && e in log
    ensures InSync(log, Attempted(x, e, outcome), if Succeeds(x, e, outcome) then done + {e} else done)
  {
    var y, done' := Attempted(x, e, outcome), if Succeeds(x, e, outcome) then done + {e} else done;
    if e.StoreUpserted? {
      RenameKeepsLogged(log, x, e, outcome);
    } else {
      ProductAttemptLogged(log, x, e, outcome);
    }
    hide Attempted, Succeeds, Logged, StoreCovered, ProductCovered;
    forall f | f in done' ensures if f.StoreUpserted? then StoreCovered(y, f) else ProductCovered(y.index, log, f) {
      if e.StoreUpserted? {
        RenameCovers(log, x, e, outcome, f);
      } else if f.StoreUpserted? {
        ProductAttemptKeepsStores(x, e, outcome, f);
      } else {
        ProductAttemptCovers(log, x, e, outcome, f);
      }
    }
  }

  // ----- convergence -----

  /** What search should answer from: every product of catalog with its latest fields and the latest
      name and slug of its store. */
  function Expected(cat: Cat): map<ProductId, Body> {
    map p | p in cat.products && cat.products[p].store in cat.stores ::
      var product, store := cat.products[p], cat.stores[cat.products[p].store];
      var f := product.fields;
      Body(product.store, Indexed(f.name, f.slug, f.description, f.rating, f.reviewCount, f.soldCount),
           store.name, store.slug, store.version)
  }

  function Visible(index: Index): map<ProductId, Body> {
    map p | p in index && !index[p].deleted && index[p].body.Some? :: index[p].body.value
  }

  /** Everything handled. */
  ghost predicate CaughtUp(cat: Cat, x: Indices, done: set<CatalogEvent>, home: ProductId -> StoreId) {
    LogOk(cat, home) && InSync(cat.log, x, done) && forall e :: e in cat.log ==> e in done
  }

  lemma CurrentIsIndexed(cat: Cat, x: Indices, done: set<CatalogEvent>, p: ProductId, home: ProductId -> StoreId)
    requires CaughtUp(cat, x, done, home) && p in cat.products
    ensures p in x.index && x.index[p].version >= cat.products[p].version && !x.index[p].deleted
  {
    LiveHasNoDeletion(cat, p, home);
    var current := ProductEvent(p, cat.products[p]);
    assert current in done && ProductCovered(x.index, cat.log, current);
    assert DocLogged(cat.log, p, x.index[p]);
    assert ProductDeleted(p, x.index[p].version) in cat.log ==> DeletionLogged(cat.log, p);
  }

  lemma ShownIsCurrent(cat: Cat, x: Indices, done: set<CatalogEvent>, p: ProductId, home: ProductId -> StoreId)
    requires CaughtUp(cat, x, done, home) && p in x.index && !x.index[p].deleted && p in cat.products
    ensures x.index[p].body.Some? && x.index[p].body.value.store == home(p)
    ensures Copies(x.index[p].body.value.fields, cat.products[p].fields)
  {
    assert DocLogged(cat.log, p, x.index[p]);
    var body := x.index[p].body.value;
    var e :| e in cat.log && e.ProductUpserted? && e.product == p && e.store == body.store
      && Copies(body.fields, e.fields) && e.version == x.index[p].version;
    assert Explained(cat, e, home);
    CurrentIsIndexed(cat, x, done, p, home);
  }

  lemma StoreNameIsCurrent(cat: Cat, x: Indices, done: set<CatalogEvent>, p: ProductId, home: ProductId -> StoreId)
    requires CaughtUp(cat, x, done, home)
    requires p in x.index && x.index[p].body.Some? && x.index[p].body.value.store in cat.stores
    ensures
      var b := x.index[p].body.value;
      var store := cat.stores[b.store];
      b.storeName == store.name && b.storeSlug == store.slug && b.storeVersion == store.version
  {
    assert DocLogged(cat.log, p, x.index[p]);
    var b := x.index[p].body.value;
    var e :| e in cat.log && e.StoreUpserted? && e.store == b.store
      && e.storeName == b.storeName && e.storeSlug == b.storeSlug && e.version == b.storeVersion;
    assert Explained(cat, e, home);
    var current := StoreEvent(b.store, cat.stores[b.store]);
    assert current in done && StoreCovered(x, current);
    assert !Stale(x.index[p], b.store, current.version);
  }

  lemma VisibleIsExpected(cat: Cat, x: Indices, done: set<CatalogEvent>, p: ProductId, home: ProductId -> StoreId)
    requires CaughtUp(cat, x, done, home)
    ensures p in Expected(cat) <==> p in cat.products
    ensures p in cat.products ==> p in Visible(x.index) && Visible(x.index)[p] == Expected(cat)[p]
    ensures p in cat.products ==>
      && cat.products[p].store in cat.stores
      && Shows(Expected(cat)[p], cat.products[p], cat.stores[cat.products[p].store])
  {
    if p in cat.products {
      ProductAtHome(cat, p, home);
      CurrentIsIndexed(cat, x, done, p, home);
      ShownIsCurrent(cat, x, done, p, home);
      StoreNameIsCurrent(cat, x, done, p, home);
    }
  }

  /** A visible document says what catalog holds, field by field. */
  ghost predicate Shows(body: Body, product: Product, store: Store) {
    && body.store == product.store
    && body.fields.name == product.fields.name && body.fields.slug == product.fields.slug
    && body.fields.description == product.fields.description && body.fields.rating == product.fields.rating
    && body.fields.reviewCount == product.fields.reviewCount && body.fields.soldCount == product.fields.soldCount
    && body.storeName == store.name && body.storeSlug == store.slug && body.storeVersion == store.version
  }

  ghost predicate ShowsCatalog(shown: map<ProductId, Body>, cat: Cat) {
    forall p :: p in cat.products ==>
      && p in shown && cat.products[p].store in cat.stores
      && Shows(shown[p], cat.products[p], cat.stores[cat.products[p].store])
  }

  /** Once every event has been handled at least once, search shows every product of catalog as it is now;
      so it shows exactly the catalog if and only if it shows no product that catalog has deleted. */
  lemma SyncedIsCatalog(cat: Cat, x: Indices, done: set<CatalogEvent>, home: ProductId -> StoreId)
    requires CaughtUp(cat, x, done, home)
    ensures forall p :: p in Expected(cat) ==> p in Visible(x.index) && Visible(x.index)[p] == Expected(cat)[p]
    ensures ShowsCatalog(Visible(x.index), cat)
    ensures Visible(x.index) == Expected(cat) <==> forall p :: p in Visible(x.index) ==> p in cat.products
  {
    hide Visible, Expected, CaughtUp, Shows;
    forall p: ProductId
      ensures p in Expected(cat) <==> p in cat.products
      ensures p in cat.products ==> p in Visible(x.index) && Visible(x.index)[p] == Expected(cat)[p]
      ensures p in cat.products ==>
        && cat.products[p].store in cat.stores
        && Shows(Expected(cat)[p], cat.products[p], cat.stores[cat.products[p].store])
    {
      VisibleIsExpected(cat, x, done, p, home);
    }
    if forall p :: p in Visible(x.index) ==> p in cat.products {
      assert forall p :: p in Visible(x.index) <==> p in Expected(cat);
    } else {
      var p :| p in Visible(x.index) && p !in cat.products;
      assert p !in Expected(cat);
    }
  }

  // ----- products that should not be shown -----

  predicate Shown(index: Index, p: ProductId) { p in index && !index[p].deleted }

  lemma ShownIsVisible(log: seq<CatalogEvent>, x: Indices, p: ProductId)
    requires Logged(log, x)
    ensures Shown(x.index, p) <==> p in Visible(x.index)
  {
    if p in x.index {
      assert DocLogged(log, p, x.index[p]);
    }
  }

  /** A delivery writes its event's document, whether or not it then counts as handled. */
  predicate WritesProduct(x: Indices, e: CatalogEvent, outcome: Outcome) {
    !e.StoreUpserted? && !outcome.Refused? && Ready(x, e)
  }

  /** What one delivery does to a product whose deletion is in the log. */
  lemma DeliveryShows(
    log: seq<CatalogEvent>, x: Indices, done: set<CatalogEvent>, e: CatalogEvent, outcome: Outcome, p: ProductId)
    requires AllCoherent(log) && InSync(log, x, done) && e in log && DeletionLogged(log, p)
    ensures Shown(Attempted(x, e, outcome).index, p) <==>
      if WritesProduct(x, e, outcome) && e.product == p then
        e.ProductUpserted? && (p !in x.index || Shown(x.index, p))
      else Shown(x.index, p)
  {
    var d :| d in log && d.ProductDeleted? && d.product == p;
    assert Coherent(e, d) && Coherent(d, e);
    if p in x.index {
      DocAgainstDeletion(log, x.index[p], d);
    }
    hide AllCoherent, InSync, Coherent;
  }

  /** A document is either older than its product's deletion, or that deletion. */
  lemma DocAgainstDeletion(log: seq<CatalogEvent>, doc: Doc, d: CatalogEvent)
    requires AllCoherent(log) && d in log && d.ProductDeleted? && DocLogged(log, d.product, doc)
    ensures if doc.deleted then doc.version == d.version else doc.version < d.version
  {
    if doc.deleted {
      assert Coherent(ProductDeleted(d.product, doc.version), d);
    } else {
      var b := doc.body.value;
      var e :| e in log && e.ProductUpserted? && e.product == d.product && e.store == b.store
        && Copies(b.fields, e.fields) && e.version == doc.version;
      assert Coherent(e, d);
    }
  }
}

/** Replicas of catalog inside commerce: tombstones, pending stock and single-store carts. */
module CommerceReplica {
  import opened Prelude
  import opened Contracts
  import opened Pricing
  import opened Commerce

  predicate Live(db: Db, p: ProductId) { p in db.products && !db.products[p].deleted }

  ghost predicate Distinct(items: seq<CartItem>) {
    forall i, j :: 0 <= i < j < |items| ==> items[i].product != items[j].product
  }

  /** Every item is in stock keeping, asked for at least once, and sold by the cart's one store. */
  ghost predicate CartOk(inventory: map<ProductId, Stock>, cart: Cart, home: ProductId -> StoreId) {
    && Distinct(cart.items)
    && forall i :: 0 <= i < |cart.items| ==>
         && cart.items[i].product in inventory
         && cart.items[i].quantity >= 1
         && cart.store == Some(home(cart.items[i].product))
  }

  ghost predicate RefsOk(db: Db, home: ProductId -> StoreId) {
    && (forall p :: p in db.products ==> db.products[p].store in db.stores && db.products[p].store == home(p))
    && (forall p :: p in db.inventory <==> Live(db, p))
    && (forall p :: p in db.pending ==> p !in db.products)
    && OneStoreEach(db.stores)
  }

  ghost predicate OneStoreEach(stores: map<StoreId, StoreRef>) {
    forall s, t :: s in stores && t in stores && stores[s].seller == stores[t].seller ==> s == t
  }

  ghost predicate CartsOk(db: Db, home: ProductId -> StoreId) {
    forall u :: u in db.carts ==> CartOk(db.inventory, db.carts[u], home)
  }

  ghost predicate Replica(db: Db, home: ProductId -> StoreId) { RefsOk(db, home) && CartsOk(db, home) }

  // ----- items -----

  lemma {:induction false} DropItemKeeps(items: seq<CartItem>, p: ProductId)
    ensures forall x :: x in DropItem(items, p) <==> x in items && x.product != p
    ensures Distinct(items) ==> Distinct(DropItem(items, p))
  {
    if items != [] {
      var init, last := items[..|items| - 1], items[|items| - 1];
      DropItemKeeps(init, p);
      assert items == init + [last];
      if Distinct(items) {
        forall x | x in DropItem(init, p) ensures x.product != last.product {
          assert x in init;
        }
      }
    }
  }

  lemma {:induction false} RestockKeys(shelf: Shelf, lines: seq<Line>)
    ensures Restock(shelf, lines).inventory.Keys == shelf.inventory.Keys
  {
    if lines != [] {
      RestockKeys(shelf, lines[..|lines| - 1]);
    }
  }

  lemma {:induction false} ReserveKeys(shelf: Shelf, items: seq<CartItem>)
    requires Reserve(shelf, items).Some?
    ensures Reserve(shelf, items).value.inventory.Keys == shelf.inventory.Keys
  {
    if items != [] {
      ReserveKeys(shelf, items[..|items| - 1]);
    }
  }

  // ----- preservation -----

  lemma CartOfOk(db: Db, u: UserId, home: ProductId -> StoreId)
    requires CartsOk(db, home)
    ensures CartOk(db.inventory, CartOf(db, u), home)
  {
  }

  lemma PutCartKeepsReplica(db: Db, u: UserId, cart: Cart, home: ProductId -> StoreId)
    requires Replica(db, home) && CartOk(db.inventory, cart, home)
    ensures Replica(db.(carts := db.carts[u := cart]), home)
  {
    var d := db.(carts := db.carts[u := cart]);
    assert forall p :: Live(d, p) == Live(db, p);
  }

  lemma NewItemOk(inventory: map<ProductId, Stock>, cart: Cart, p: ProductId, quantity: nat, home: ProductId -> StoreId)
    requires CartOk(inventory, cart, home) && p in inventory && quantity >= 1
    requires cart.store.None? || cart.store == Some(home(p))
    requires forall i :: 0 <= i < |cart.items| ==> cart.items[i].product != p
    ensures CartOk(inventory, Cart(Some(home(p)), cart.items + [CartItem(p, quantity)]), home)
  {
  }

  lemma ChangedItemOk(inventory: map<ProductId, Stock>, cart: Cart, i: nat, quantity: nat, home: ProductId -> StoreId)
    requires CartOk(inventory, cart, home) && i < |cart.items| && quantity >= 1
    ensures CartOk(inventory, cart.(items := cart.items[i := CartItem(cart.items[i].product, quantity)]), home)
    ensures cart.store == Some(home(cart.items[i].product))
  {
  }

  lemma AddedCartOk(
    db: Db, buyer: UserId, p: ProductId, quantity: int, synced: bool, home: ProductId -> StoreId)
    requires CartOk(db.inventory, CartOf(db, buyer), home) && AddItem(db, buyer, p, quantity, synced).Ok?
    requires p in db.products && db.products[p].store == home(p)
    ensures CartOk(db.inventory, CartOf(AddItem(db, buyer, p, quantity, synced).value, buyer), home)
  {
    hide CartOk;
    var cart := CartOf(db, buyer);
    var at := FindItem(cart.items, p);
    if at.Some? {
      ChangedItemOk(db.inventory, cart, at.value, cart.items[at.value].quantity + quantity, home);
    } else {
      NewItemOk(db.inventory, cart, p, quantity, home);
    }
  }

  lemma AddItemKeepsReplica(
    db: Db, buyer: UserId, p: ProductId, quantity: int, synced: bool, home: ProductId -> StoreId)
    requires Replica(db, home) && AddItem(db, buyer, p, quantity, synced).Ok?
    ensures Replica(AddItem(db, buyer, p, quantity, synced).value, home)
  {
    var after := AddItem(db, buyer, p, quantity, synced).value;
    AtHome(db, p, home);
    CartOfOk(db, buyer, home);
    hide Replica, CartOk;
    AddedCartOk(db, buyer, p, quantity, synced, home);
    PutCartKeepsReplica(db, buyer, CartOf(after, buyer), home);
  }

  lemma AtHome(db: Db, p: ProductId, home: ProductId -> StoreId)
    requires RefsOk(db, home) && p in db.products
    ensures db.products[p].store == home(p)
  {
  }

  lemma SetQuantityKeepsReplica(db: Db, buyer: UserId, p: ProductId, quantity: int, home: ProductId -> StoreId)
    requires Replica(db, home) && SetQuantity(db, buyer, p, quantity).Ok?
    ensures Replica(SetQuantity(db, buyer, p, quantity).value, home)
  {
    CartOfOk(db, buyer, home);
    hide Replica, CartOk;
    ChangedItemOk(db.inventory, CartOf(db, buyer), FindItem(CartOf(db, buyer).items, p).value, quantity, home);
    PutCartKeepsReplica(db, buyer, SetQuantity(db, buyer, p, quantity).value.carts[buyer], home);
  }

  lemma RemoveItemKeepsReplica(db: Db, buyer: UserId, p: ProductId, home: ProductId -> StoreId)
    requires Replica(db, home) && RemoveItem(db, buyer, p).Ok?
    ensures Replica(RemoveItem(db, buyer, p).value, home)
  {
    var cart := RemoveItem(db, buyer, p).value.carts[buyer];
    assert CartOk(db.inventory, cart, home) by {
      hide RefsOk;
      CartOfOk(db, buyer, home);
      DropItemKeeps(CartOf(db, buyer).items, p);
      assert forall i :: 0 <= i < |cart.items| ==> cart.items[i] in CartOf(db, buyer).items;
    }
    PutCartKeepsReplica(db, buyer, cart, home);
  }

  lemma CartOpsKeepReplica(db: Db, op: Op, home: ProductId -> StoreId)
    requires Replica(db, home) && CartOp(op) && Attempt(db, op).Ok?
    ensures Replica(Attempt(db, op).value, home)
  {
    hide Checkout, ReturnOrder, Consume, SetStock, AddItem, SetQuantity, RemoveItem, RefsOk;
    match op
    case DoAddItem(buyer, p, q, synced) => AddItemKeepsReplica(db, buyer, p, q, synced, home);
    case DoSetQuantity(buyer, p, q) => SetQuantityKeepsReplica(db, buyer, p, q, home);
    case DoRemoveItem(buyer, p) => RemoveItemKeepsReplica(db, buyer, p, home);
    case DoOpenCart(buyer) =>
      CartOfOk(db, buyer, home);
      PutCartKeepsReplica(db, buyer, OpenCart(db, buyer).carts[buyer], home);
    case DoClearCart(buyer) => PutCartKeepsReplica(db, buyer, Cart(None, []), home);
  }

  /** Writers that keep the set of stocked products and may only empty carts. */
  lemma SameKeysKeepReplica(db: Db, d: Db, home: ProductId -> StoreId)
    requires Replica(db, home)
    requires d.products == db.products && d.stores == db.stores && d.inventory.Keys == db.inventory.Keys
    requires forall p :: p in d.pending ==> p in db.pending || p !in db.products
    requires forall u :: u in d.carts ==> (u in db.carts && d.carts[u] == db.carts[u]) || d.carts[u] == Cart(None, [])
    ensures Replica(d, home)
  {
    forall u | u in d.carts ensures CartOk(d.inventory, d.carts[u], home) {
      if d.carts[u] != Cart(None, []) {
        assert CartOk(db.inventory, db.carts[u], home);
      }
    }
    assert forall p :: Live(d, p) == Live(db, p);
    assert forall p :: p in d.inventory <==> p in db.inventory;
  }

  lemma SetStockKeepsReplica(db: Db, seller: UserId, p: ProductId, units: nat, home: ProductId -> StoreId)
    requires Replica(db, home) && SetStock(db, seller, p, units).Ok?
    ensures Replica(SetStock(db, seller, p, units).value, home)
  {
    assert p in db.inventory <==> Live(db, p);
    SameKeysKeepReplica(db, SetStock(db, seller, p, units).value, home);
  }

  lemma SameCartsKeepCartsOk(db: Db, d: Db, home: ProductId -> StoreId)
    requires CartsOk(db, home) && d.carts == db.carts
    requires forall p :: p in db.inventory ==> p in d.inventory
    ensures CartsOk(d, home)
  {
  }

  lemma NewStoreKeepsOneEach(stores: map<StoreId, StoreRef>, s: StoreId, ref: StoreRef)
    requires OneStoreEach(stores) && !SellerTaken(stores, s, ref.seller)
    ensures OneStoreEach(stores[s := ref])
  {
  }

  lemma StoreKeepsReplica(db: Db, s: StoreId, ref: StoreRef, home: ProductId -> StoreId)
    requires Replica(db, home) && ReplicateStore(db, s, ref).Ok?
    ensures Replica(ReplicateStore(db, s, ref).value, home)
  {
    hide SellerTaken, OneStoreEach;
    var d := ReplicateStore(db, s, ref).value;
    if s !in db.stores || db.stores[s].version < ref.version {
      NewStoreKeepsOneEach(db.stores, s, ref);
      assert forall p :: Live(d, p) == Live(db, p);
      SameCartsKeepCartsOk(db, d, home);
    }
  }

  lemma PutRefKeepsRefs(db: Db, d: Db, p: ProductId, ref: ProductRef, home: ProductId -> StoreId)
    requires RefsOk(db, home)
    requires d.stores == db.stores && d.products == db.products[p := ref]
    requires ref.store == home(p) && ref.store in db.stores
    requires d.inventory.Keys == if ref.deleted then db.inventory.Keys - {p} else db.inventory.Keys + {p}
    requires d.pending == db.pending - {p}
    ensures RefsOk(d, home)
  {
    hide OneStoreEach;
    forall q ensures q in d.inventory <==> Live(d, q) {
      assert q in d.inventory <==> q in d.inventory.Keys;
      assert q != p ==> (q in db.inventory <==> Live(db, q));
    }
  }

  lemma ProductKeepsRefs(db: Db, p: ProductId, f: ProductFields, version: nat, home: ProductId -> StoreId)
    requires RefsOk(db, home) && ReplicateProduct(db, p, home(p), f, version).Ok?
    ensures RefsOk(ReplicateProduct(db, p, home(p), f, version).value, home)
  {
    if p !in db.products || db.products[p].version < version {
      var deleted := p in db.products && db.products[p].deleted;
      assert p in db.inventory <==> Live(db, p);
      assert p in db.pending ==> p !in db.products;
      hide RefsOk, OneStoreEach;
      PutRefKeepsRefs(db, ReplicateProduct(db, p, home(p), f, version).value, p, RefOf(home(p), f, deleted, version), home);
    }
  }

  lemma ProductKeepsReplica(db: Db, p: ProductId, f: ProductFields, version: nat, home: ProductId -> StoreId)
    requires Replica(db, home) && ReplicateProduct(db, p, home(p), f, version).Ok?
    ensures Replica(ReplicateProduct(db, p, home(p), f, version).value, home)
  {
    ProductKeepsRefs(db, p, f, version, home);
    hide RefsOk;
    SameCartsKeepCartsOk(db, ReplicateProduct(db, p, home(p), f, version).value, home);
  }

  lemma DeletionKeepsReplica(db: Db, p: ProductId, version: nat, home: ProductId -> StoreId)
    requires Replica(db, home) && ReplicateDeletion(db, p, version).Ok?
    ensures Replica(ReplicateDeletion(db, p, version).value, home)
  {
    var d := ReplicateDeletion(db, p, version).value;
    if p in db.products && db.products[p].version < version {
      assert forall q :: q != p ==> Live(d, q) == Live(db, q);
      forall u | u in d.carts ensures CartOk(d.inventory, d.carts[u], home) {
        assert CartOk(db.inventory, db.carts[u], home);
        DropItemKeeps(db.carts[u].items, p);
        forall i | 0 <= i < |d.carts[u].items|
          ensures d.carts[u].items[i].product in d.inventory && d.carts[u].items[i].quantity >= 1
            && d.carts[u].store == Some(home(d.carts[u].items[i].product))
        {
          assert d.carts[u].items[i] in db.carts[u].items;
        }
      }
    }
  }

  lemma ConsumeKeepsReplica(db: Db, e: CatalogEvent, home: ProductId -> StoreId)
    requires Replica(db, home) && Allowed(DoConsume(e), home) && Consume(db, e).Ok?
    ensures Replica(Consume(db, e).value, home)
  {
    hide ReplicateStore, ReplicateProduct, ReplicateDeletion, Replica;
    match e
    case StoreUpserted(s, seller, name, slug, version) =>
      StoreKeepsReplica(db, s, StoreRef(seller, name, slug, version), home);
    case ProductUpserted(p, store, f, version) => ProductKeepsReplica(db, p, f, version, home);
    case ProductDeleted(p, version) => DeletionKeepsReplica(db, p, version, home);
  }

  lemma CheckoutKeepsReplica(db: Db, buyer: UserId, req: Request, home: ProductId -> StoreId)
    requires Replica(db, home) && Checkout(db, buyer, req).Ok?
    ensures Replica(Checkout(db, buyer, req).value, home)
  {
    ReserveKeys(ShelfOf(db), Sorted(Joined(db, CartOf(db, buyer).items)));
    SameKeysKeepReplica(db, Checkout(db, buyer, req).value, home);
  }

  lemma ReturnKeepsReplica(db: Db, o: OrderId, home: ProductId -> StoreId)
    requires Replica(db, home) && ReturnOrder(db, o).Ok?
    ensures Replica(ReturnOrder(db, o).value, home)
  {
    RestockKeys(ShelfOf(db), db.orders[o].lines);
    SameKeysKeepReplica(db, ReturnOrder(db, o).value, home);
  }

  lemma OtherOpsKeepReplica(db: Db, op: Op, home: ProductId -> StoreId)
    requires Replica(db, home) && Attempt(db, op).Ok?
    requires JobOp(op) || WalletOp(op) || CodeOp(op)
    ensures Replica(Attempt(db, op).value, home)
  {
    hide Attempt, Replica;
    if JobOp(op) {
      JobFrame(db, op);
    } else if WalletOp(op) {
      WalletFrame(db, op);
    } else {
      CodeFrame(db, op);
    }
    SameKeysKeepReplica(db, Attempt(db, op).value, home);
  }

  lemma StepKeepsReplica(db: Db, op: Op, home: ProductId -> StoreId)
    requires Replica(db, home) && Allowed(op, home)
    ensures Replica(Step(db, op), home)
  {
    hide Checkout, ReturnOrder, Consume, SetStock, AddItem, SetQuantity, ProcessOrder, TakeJob, CompleteJob;
    hide Replica;
    if Attempt(db, op).Ok? {
      match op
      case DoCheckout(buyer, req) => CheckoutKeepsReplica(db, buyer, req, home);
      case DoReturnOrder(o) => ReturnKeepsReplica(db, o, home);
      case DoSetStock(seller, p, units) => SetStockKeepsReplica(db, seller, p, units, home);
      case DoConsume(e) => ConsumeKeepsReplica(db, e, home);
      case _ =>
        if CartOp(op) {
          CartOpsKeepReplica(db, op, home);
        } else {
          OtherOpsKeepReplica(db, op, home);
        }
    }
  }

  /** In every reachable state: a replica row's store is known; exactly the live products are
      stocked; no product has both a pending and a replica row; sellers own one store; and every
      cart holds distinct stocked products of the single store it names. */
  lemma {:induction false} ReplicaInvariant(ops: seq<Op>, home: ProductId -> StoreId)
    requires AllAllowed(ops, home)
    ensures Replica(Run(EMPTY, ops), home)
  {
    if ops != [] {
      ReplicaInvariant(ops[..|ops| - 1], home);
      StepKeepsReplica(Run(EMPTY, ops[..|ops| - 1]), ops[|ops| - 1], home);
    }
  }
}

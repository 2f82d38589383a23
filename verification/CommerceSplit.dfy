/** Where taking a transaction as one step matters: the transactions that read a guard without locking what
    it guards and write later. Each is split here into the read, made on an earlier state, and its writes,
    with what goes wrong in between; the writes keep what the runs keep if and only if the guard still
    holds when they are made. */
module CommerceSplit {
  import opened Prelude
  import opened Contracts
  import opened Pricing
  import opened Commerce
  import opened CommerceReplica
  import opened CommerceOrders
  import opened CommerceSync
  import opened CommerceStock
  import opened CommerceCart
  import CommerceService

  // ----- a seller processing an order -----

  /** By id alone, without looking at the status again; `order_id` is unique among jobs. */
  function ProcessWrites(db: Db, o: OrderId): Result<Db, Error>
    requires o < |db.orders|
  {
    if o in db.jobs then Err(Conflict)
    else Ok(db.(orders := db.orders[o := Advance(db.orders[o], MenungguPengirim)],
                jobs := db.jobs[o := Job(None, Pending, db.orders[o].fee)]))
  }

  lemma ProcessWritesInOrder(db: Db, o: OrderId, home: ProductId -> StoreId)
    requires Lifecycle(db, home) && o < |db.orders| && db.orders[o].status == SedangDikemas
    ensures ProcessWrites(db, o).Ok? && Lifecycle(ProcessWrites(db, o).value, home)
  {
    assert OrderOk(db, o, home);
    var d := ProcessWrites(db, o).value;
    MoveKeepsOrders(db, d, o, MenungguPengirim, home) by { hide CompletionsOk; }
    assert CompletionsFrame(db, d);
    hide OrdersOk;
    FrameKeepsCompletions(db, d);
  }

  /** The write that goes through keeps the lifecycle if and only if the order is still being packed. */
  lemma ProcessWritesIff(db: Db, o: OrderId, home: ProductId -> StoreId)
    requires Lifecycle(db, home) && o < |db.orders| && ProcessWrites(db, o).Ok?
    ensures Lifecycle(ProcessWrites(db, o).value, home) <==> db.orders[o].status == SedangDikemas
  {
    if db.orders[o].status == SedangDikemas {
      ProcessWritesInOrder(db, o, home);
    } else {
      assert OrderOk(db, o, home);
      var d := ProcessWrites(db, o).value;
      var h := d.orders[o].history;
      assert h[|h| - 2] == db.orders[o].status && h[|h| - 1] == MenungguPengirim;
      assert !Follows(h[|h| - 2], h[|h| - 1]);
      assert !PathOk(d.orders[o]);
      assert !OrderOk(d, o, home);
    }
  }

  /** An overdue pass between the two: the refunded order is on its way again, and a driver can take it. */
  lemma SplitProcessingRevivesReturns(db: Db, o: OrderId, home: ProductId -> StoreId)
    requires Lifecycle(db, home) && o < |db.orders| && db.orders[o].status == SedangDikemas
    ensures ReturnOrder(db, o).Ok? && o < |ReturnOrder(db, o).value.orders|
    ensures
      var returned := ReturnOrder(db, o).value;
      && returned.orders[o].status == Dikembalikan && ProcessWrites(returned, o).Ok?
      && var d := ProcessWrites(returned, o).value;
      && d.orders[o].status == MenungguPengirim && !Lifecycle(d, home) && TakeJob(d, o, 0).Ok?
  {
    hide CompletionsOk;
    assert OrderOk(db, o, home);
    var d := ProcessWrites(ReturnOrder(db, o).value, o).value;
    var h := d.orders[o].history;
    assert h[|h| - 2] == Dikembalikan && h[|h| - 1] == MenungguPengirim;
    assert !Follows(h[|h| - 2], h[|h| - 1]);
    assert !PathOk(d.orders[o]);
    assert !OrderOk(d, o, home);
  }

  // ----- a seller setting stock -----

  /** The upsert of the inventory row, by product id alone. A deletion takes no product lock. */
  function StockWrites(db: Db, p: ProductId, units: nat): Db { WithShelf(db, Put(ShelfOf(db), p, units)) }

  /** The write keeps the replica coherent if and only if the product is still live. */
  lemma StockWritesIff(db: Db, p: ProductId, units: nat, home: ProductId -> StoreId)
    requires Replica(db, home)
    ensures Replica(StockWrites(db, p, units), home) <==> Live(db, p)
  {
    var d := StockWrites(db, p, units);
    assert Live(d, p) == Live(db, p) && p in d.inventory;
    if Live(db, p) {
      assert p in db.inventory <==> Live(db, p);
      assert d.inventory.Keys == db.inventory.Keys;
      SameKeysKeepReplica(db, d, home);
    }
  }

  /** A deletion between the two: the tombstone has stock again, announced as its version 1. */
  lemma SplitStockSettingRevivesStock(
    db: Db, seller: UserId, p: ProductId, units: nat, version: nat, home: ProductId -> StoreId)
    requires Replica(db, home) && Live(db, p) && SetStock(db, seller, p, units).Ok?
    requires version > db.products[p].version
    ensures SetStock(db, seller, p, units).value == StockWrites(db, p, units)
    ensures
      var deleted := ReplicateDeletion(db, p, version).value;
      && Tombstoned(deleted, p) && p !in deleted.inventory
      && var d := StockWrites(deleted, p, units);
      && Tombstoned(d, p) && p in d.inventory && d.inventory[p] == Stock(units, 1) && !Replica(d, home)
      && d.outbox == db.outbox + [InventoryChanged(p, units, 1)]
  {
    assert p in db.inventory <==> Live(db, p);
    var d := StockWrites(ReplicateDeletion(db, p, version).value, p, units);
    assert !Live(d, p) && p in d.inventory;
  }

  // ----- a buyer adding to the cart -----

  /** The writes of an add that read the cart as `seen`: the store only if none was seen, then the row,
      updated if one was seen and inserted if not. (cart, product) is unique. */
  function AddWrites(db: Db, buyer: UserId, seen: Cart, p: ProductId, store: StoreId, quantity: nat): Result<Db, Error> {
    var cart := CartOf(db, buyer);
    var owner := if seen.store.None? then Some(store) else cart.store;
    var was, at := FindItem(seen.items, p), FindItem(cart.items, p);
    if was.Some? then
      var sum := seen.items[was.value].quantity + quantity;
      var items := if at.Some? then cart.items[at.value := CartItem(p, sum)] else cart.items;
      Ok(db.(carts := db.carts[buyer := Cart(owner, items)]))
    else if at.Some? then Err(Conflict)
    else Ok(db.(carts := db.carts[buyer := Cart(owner, cart.items + [CartItem(p, quantity)])]))
  }

  /** An add is its guards followed by these writes on the same state. */
  lemma AddIsGuardsAndWrites(db: Db, buyer: UserId, p: ProductId, quantity: int, synced: bool, home: ProductId -> StoreId)
    requires Replica(db, home) && AddItem(db, buyer, p, quantity, synced).Ok?
    ensures quantity > 0 && AddWrites(db, buyer, CartOf(db, buyer), p, home(p), quantity) == AddItem(db, buyer, p, quantity, synced)
  {
    CartOfOk(db, buyer, home);
    AtHome(db, p, home);
    hide Replica;
  }

  /** At the moment of the write. An add that only updates a row, and set no store, always fits; otherwise
      the cart is empty or of the product's store, is left to that store, and a product inserted is live. */
  predicate StillFits(db: Db, buyer: UserId, seen: Cart, p: ProductId, home: ProductId -> StoreId) {
    var cart := CartOf(db, buyer);
    var updates := FindItem(seen.items, p).Some?;
    || (updates && seen.store.Some?)
    || ((updates || Live(db, p)) && (cart.store == Some(home(p)) || (seen.store.None? && cart.items == [])))
  }

  lemma CartWriteIff(db: Db, buyer: UserId, cart: Cart, home: ProductId -> StoreId)
    requires Replica(db, home)
    ensures Replica(db.(carts := db.carts[buyer := cart]), home) <==> CartOk(db.inventory, cart, home)
  {
    var d := db.(carts := db.carts[buyer := cart]);
    assert d.carts[buyer] == cart;
    if CartOk(db.inventory, cart, home) {
      PutCartKeepsReplica(db, buyer, cart, home);
    }
  }

  lemma UpdatedCartIff(
    inventory: map<ProductId, Stock>, cart: Cart, owner: Option<StoreId>, p: ProductId, quantity: nat,
    home: ProductId -> StoreId)
    requires CartOk(inventory, cart, home) && quantity > 0
    ensures
      var at := FindItem(cart.items, p);
      var items := if at.Some? then cart.items[at.value := CartItem(p, quantity)] else cart.items;
      && (CartOk(inventory, Cart(owner, items), home) <==> cart.items == [] || cart.store == owner)
      && (at.Some? ==> cart.store == Some(home(p)))
  {
    var at := FindItem(cart.items, p);
    var items := if at.Some? then cart.items[at.value := CartItem(p, quantity)] else cart.items;
    if cart.items != [] {
      assert cart.store == Some(home(cart.items[0].product)) && items[0].product == cart.items[0].product;
    }
    if at.Some? {
      ChangedItemOk(inventory, cart, at.value, quantity, home);
    }
  }

  lemma InsertedCartIff(
    db: Db, buyer: UserId, cart: Cart, owner: Option<StoreId>, p: ProductId, quantity: nat, home: ProductId -> StoreId)
    requires Replica(db, home) && cart == CartOf(db, buyer) && quantity > 0 && FindItem(cart.items, p).None?
    ensures CartOk(db.inventory, Cart(owner, cart.items + [CartItem(p, quantity)]), home)
      <==> Live(db, p) && owner == Some(home(p)) && (cart.items == [] || cart.store == owner)
  {
    CartOfOk(db, buyer, home);
    assert p in db.inventory <==> Live(db, p);
    var items := cart.items + [CartItem(p, quantity)];
    assert items[|cart.items|] == CartItem(p, quantity);
    if cart.items != [] {
      assert items[0] == cart.items[0] && cart.store == Some(home(cart.items[0].product));
    }
    if Live(db, p) && owner == Some(home(p)) && (cart.items == [] || cart.store == owner) {
      NewItemOk(db.inventory, if cart.items == [] then Cart(None, []) else cart, p, quantity, home);
      assert cart.items == [] ==> [] + [CartItem(p, quantity)] == items;
    }
  }

  /** The writes keep the replica and the carts coherent if and only if the add still fits. */
  lemma AddWritesIff(db: Db, buyer: UserId, seen: Cart, p: ProductId, quantity: nat, home: ProductId -> StoreId)
    requires Replica(db, home) && quantity > 0
    requires AddWrites(db, buyer, seen, p, home(p), quantity).Ok?
    ensures Replica(AddWrites(db, buyer, seen, p, home(p), quantity).value, home) <==> StillFits(db, buyer, seen, p, home)
  {
    var d := AddWrites(db, buyer, seen, p, home(p), quantity).value;
    var cart := CartOf(db, buyer);
    CartOfOk(db, buyer, home);
    CartWriteIff(db, buyer, d.carts[buyer], home);
    var was := FindItem(seen.items, p);
    hide Replica, CartOk, Live;
    if was.Some? {
      UpdatedCartIff(db.inventory, cart, d.carts[buyer].store, p, seen.items[was.value].quantity + quantity, home);
    } else {
      InsertedCartIff(db, buyer, cart, d.carts[buyer].store, p, quantity, home);
    }
  }

  /** Two adds that both saw an empty cart: it holds products of two stores, where one after the other
      the second is refused. */
  lemma SplitAddsMixStores(db: Db, buyer: UserId, p: ProductId, q: ProductId, quantity: int, home: ProductId -> StoreId)
    requires Replica(db, home) && CartOf(db, buyer) == Cart(None, []) && home(p) != home(q)
    requires AddItem(db, buyer, p, quantity, true).Ok? && AddItem(db, buyer, q, quantity, true).Ok?
    ensures quantity > 0
    ensures
      var first := AddItem(db, buyer, p, quantity, true).value;
      && AddItem(first, buyer, q, quantity, true) == Err(Conflict)
      && AddWrites(first, buyer, CartOf(db, buyer), q, home(q), quantity).Ok?
      && var d := AddWrites(first, buyer, CartOf(db, buyer), q, home(q), quantity).value;
      && CartOf(d, buyer) == Cart(Some(home(q)), [CartItem(p, quantity), CartItem(q, quantity)]) && !Replica(d, home)
  {
    AtHome(db, p, home);
    AtHome(db, q, home);
    var first := AddItem(db, buyer, p, quantity, true).value;
    assert CartOf(first, buyer).items == [CartItem(p, quantity)];
    assert FindItem([CartItem(p, quantity)], q).None?;
    var d := AddWrites(first, buyer, CartOf(db, buyer), q, home(q), quantity).value;
    assert CartOf(d, buyer).items[0] == CartItem(p, quantity);
    assert !CartOk(d.inventory, d.carts[buyer], home);
  }

  /** A deletion between the two: the tombstone is in a cart. */
  lemma SplitAddOutlivesDeletion(
    db: Db, buyer: UserId, p: ProductId, quantity: int, version: nat, home: ProductId -> StoreId)
    requires Replica(db, home) && AddItem(db, buyer, p, quantity, true).Ok? && FindItem(CartOf(db, buyer).items, p).None?
    requires version > db.products[p].version
    ensures quantity > 0
    ensures
      var deleted := ReplicateDeletion(db, p, version).value;
      && AddWrites(deleted, buyer, CartOf(db, buyer), p, home(p), quantity).Ok?
      && var d := AddWrites(deleted, buyer, CartOf(db, buyer), p, home(p), quantity).value;
      && Tombstoned(d, p) && FindItem(CartOf(d, buyer).items, p).Some? && !Replica(d, home)
  {
    var deleted := ReplicateDeletion(db, p, version).value;
    DropItemKeeps(CartOf(db, buyer).items, p);
    var cart := CartOf(deleted, buyer);
    assert FindItem(cart.items, p).None?;
    var d := AddWrites(deleted, buyer, CartOf(db, buyer), p, home(p), quantity).value;
    assert d.carts[buyer].items[|cart.items|].product == p && p !in d.inventory;
    assert !CartOk(d.inventory, d.carts[buyer], home);
  }

  /** The removal of the last item between the two: an item in a cart of no store, which no checkout takes. */
  lemma SplitAddLosesStore(
    db: Db, buyer: UserId, o: ProductId, p: ProductId, quantity: int, req: Request, home: ProductId -> StoreId)
    requires Replica(db, home) && o != p && |CartOf(db, buyer).items| == 1 && CartOf(db, buyer).items[0].product == o
    requires AddItem(db, buyer, p, quantity, true).Ok? && req.addressFound
    ensures quantity > 0 && RemoveItem(db, buyer, o).Ok?
    ensures
      var removed := RemoveItem(db, buyer, o).value;
      && AddWrites(removed, buyer, CartOf(db, buyer), p, home(p), quantity).Ok?
      && var d := AddWrites(removed, buyer, CartOf(db, buyer), p, home(p), quantity).value;
      && CartOf(d, buyer) == Cart(None, [CartItem(p, quantity)]) && !Replica(d, home)
      && Checkout(d, buyer, req) == Err(Invalid)
  {
    CartOfOk(db, buyer, home);
    var cart := CartOf(db, buyer);
    assert cart.items[..0] == [] && cart.items == [cart.items[0]];
    assert FindItem(cart.items[..0], p).None? && DropItem(cart.items[..0], o) == [];
    var removed := RemoveItem(db, buyer, o).value;
    assert CartOf(removed, buyer) == Cart(None, []);
    var d := AddWrites(removed, buyer, cart, p, home(p), quantity).value;
    assert d.carts[buyer].items[0] == CartItem(p, quantity);
    assert !CartOk(d.inventory, d.carts[buyer], home);
  }

  // ----- units under overlapping adds -----

  /** Two adds of one product can lose units: the sum is computed from the row as it was read. The writes
      add exactly the asked units if and only if the row then holds the quantity that was read. */
  lemma AddWritesUnitsIff(db: Db, buyer: UserId, seen: Cart, p: ProductId, store: StoreId, quantity: nat)
    requires Distinct(CartOf(db, buyer).items) && Distinct(seen.items) && quantity > 0
    requires forall i :: 0 <= i < |seen.items| ==> seen.items[i].quantity >= 1
    requires AddWrites(db, buyer, seen, p, store, quantity).Ok?
    ensures
      var after := AddWrites(db, buyer, seen, p, store, quantity).value;
      InCart(after, buyer, p) == InCart(db, buyer, p) + quantity <==> InCart(db, buyer, p) == Ordered(seen.items, p)
  {
    hide Sum;
    var items := CartOf(db, buyer).items;
    var was, at := FindItem(seen.items, p), FindItem(items, p);
    if was.Some? {
      OrderedIsRow(seen.items, was.value);
    } else {
      NotOrdered(seen.items, p);
      SumAppend(items, CartItem(p, quantity), QuantityOf(p));
    }
    if at.Some? {
      OrderedIsRow(items, at.value);
      if was.Some? {
        SumUpdate(items, at.value, CartItem(p, seen.items[was.value].quantity + quantity), QuantityOf(p));
      }
    } else {
      NotOrdered(items, p);
    }
  }

  /** Two adds of the same product that read the cart alike leave the units of one of them. */
  lemma SplitAddsLoseUnits(db: Db, buyer: UserId, p: ProductId, quantity: int, home: ProductId -> StoreId)
    requires Replica(db, home) && AddItem(db, buyer, p, quantity, true).Ok? && InCart(db, buyer, p) > 0
    ensures
      var first := AddItem(db, buyer, p, quantity, true).value;
      && quantity > 0 && AddWrites(first, buyer, CartOf(db, buyer), p, home(p), quantity).Ok?
      && InCart(AddWrites(first, buyer, CartOf(db, buyer), p, home(p), quantity).value, buyer, p)
           == InCart(db, buyer, p) + quantity
  {
    CartOfOk(db, buyer, home);
    AtHome(db, p, home);
    hide Sum, Replica;
    var items := CartOf(db, buyer).items;
    if FindItem(items, p).None? {
      NotOrdered(items, p);
    }
    AddedTwice(db, buyer, p, quantity);
    AddedUnits(db, buyer, p, quantity, true, p);
  }

  lemma FoundRow(items: seq<CartItem>, i: nat)
    requires Distinct(items) && i < |items|
    ensures FindItem(items, items[i].product) == Some(i)
  {
  }

  /** The second of two such adds writes what the first wrote. */
  lemma AddedTwice(db: Db, buyer: UserId, p: ProductId, quantity: int)
    requires Distinct(CartOf(db, buyer).items) && FindItem(CartOf(db, buyer).items, p).Some?
    requires AddItem(db, buyer, p, quantity, true).Ok?
    ensures
      var first := AddItem(db, buyer, p, quantity, true).value;
      && quantity > 0 && CartOf(db, buyer).store.Some?
      ==> AddWrites(first, buyer, CartOf(db, buyer), p, db.products[p].store, quantity) == Ok(first)
  {
    var items := CartOf(db, buyer).items;
    var at := FindItem(items, p).value;
    var row := CartItem(p, items[at].quantity + quantity);
    FoundRow(items[at := row], at);
    var first := AddItem(db, buyer, p, quantity, true).value;
    if quantity > 0 && CartOf(db, buyer).store.Some? {
      assert items[at := row][at := row] == items[at := row];
      assert first.carts == first.carts[buyer := first.carts[buyer]];
    }
  }

  // ----- emptying a cart -----

  /** The rows still in the cart once those of `deleted` are gone. */
  function Left(items: seq<CartItem>, deleted: set<ProductId>): seq<CartItem> {
    if items == [] then []
    else
      var init, last := Left(items[..|items| - 1], deleted), items[|items| - 1];
      if last.product in deleted then init else init + [last]
  }

  /** A removal, a clear, the healing of a cart without items, and the end of a checkout: rows are deleted,
      or found to be gone already, and then the store is taken off the cart by its id alone. */
  function ClearWrites(db: Db, buyer: UserId, deleted: set<ProductId>): Db {
    if buyer !in db.carts then db
    else db.(carts := db.carts[buyer := Cart(None, Left(db.carts[buyer].items, deleted))])
  }

  predicate Emptied(db: Db, buyer: UserId, deleted: set<ProductId>) {
    forall i :: 0 <= i < |CartOf(db, buyer).items| ==> CartOf(db, buyer).items[i].product in deleted
  }

  lemma {:induction false} LeftIsEmptyIff(items: seq<CartItem>, deleted: set<ProductId>)
    ensures Left(items, deleted) == [] <==> forall i :: 0 <= i < |items| ==> items[i].product in deleted
  {
    if items != [] {
      LeftIsEmptyIff(items[..|items| - 1], deleted);
    }
  }

  lemma StorelessIff(inventory: map<ProductId, Stock>, left: seq<CartItem>, home: ProductId -> StoreId)
    ensures CartOk(inventory, Cart(None, left), home) <==> left == []
  {
    if left != [] {
      var cart: Cart := Cart(None, left);
      assert cart.items[0] == left[0];
    }
  }

  /** The writes keep carts coherent if and only if they leave no row behind. */
  lemma ClearWritesIff(db: Db, buyer: UserId, deleted: set<ProductId>, home: ProductId -> StoreId)
    requires Replica(db, home)
    ensures Replica(ClearWrites(db, buyer, deleted), home) <==> Emptied(db, buyer, deleted)
  {
    hide Replica, CartOk, Left;
    if buyer in db.carts {
      var items := db.carts[buyer].items;
      CartWriteIff(db, buyer, Cart(None, Left(items, deleted)), home);
      LeftIsEmptyIff(items, deleted);
      StorelessIff(db.inventory, Left(items, deleted), home);
      assert CartOf(db, buyer).items == items;
    } else {
      assert CartOf(db, buyer).items == [] && ClearWrites(db, buyer, deleted) == db;
    }
  }

  /** A cart names a store and has lost its last item; it is being healed. A whole add of that store's
      product between the two: its item is in a cart of no store, which no checkout takes. */
  lemma SplitHealLosesStore(
    db: Db, buyer: UserId, p: ProductId, quantity: int, req: Request, home: ProductId -> StoreId)
    requires Replica(db, home) && CartOf(db, buyer) == Cart(Some(home(p)), []) && req.addressFound
    requires AddItem(db, buyer, p, quantity, true).Ok?
    ensures
      var added := AddItem(db, buyer, p, quantity, true).value;
      && quantity > 0 && Replica(added, home) && StillFits(db, buyer, CartOf(db, buyer), p, home)
      && var d := ClearWrites(added, buyer, {});
      && CartOf(d, buyer) == Cart(None, [CartItem(p, quantity)]) && !Replica(d, home)
      && Checkout(d, buyer, req) == Err(Invalid)
  {
    AddItemKeepsReplica(db, buyer, p, quantity, true, home);
    AtHome(db, p, home);
    assert p in db.inventory <==> Live(db, p);
    var added := AddItem(db, buyer, p, quantity, true).value;
    hide Replica, Live;
    assert CartOf(added, buyer) == Cart(Some(home(p)), [CartItem(p, quantity)]);
    HealedStore(added, buyer, CartItem(p, quantity), req, home);
  }

  lemma HealedStore(db: Db, buyer: UserId, item: CartItem, req: Request, home: ProductId -> StoreId)
    requires Replica(db, home) && CartOf(db, buyer).items == [item] && req.addressFound
    ensures
      var d := ClearWrites(db, buyer, {});
      CartOf(d, buyer) == Cart(None, [item]) && !Replica(d, home) && Checkout(d, buyer, req) == Err(Invalid)
  {
    ClearWritesIff(db, buyer, {}, home);
    hide Replica;
    var items := CartOf(db, buyer).items;
    assert Left(items[..0], {}) == [] && Left(items, {}) == items;
    assert !Emptied(db, buyer, {}) by { assert items[0].product !in {}; }
  }

  /** And a cart of no store takes any store's product next to what it holds. */
  lemma StorelessCartMixesStores(db: Db, buyer: UserId, item: CartItem, q: ProductId, quantity: int)
    requires CartOf(db, buyer) == Cart(None, [item]) && q != item.product
    requires AddItem(db.(carts := map[]), buyer, q, quantity, true).Ok?
    ensures quantity > 0 && AddItem(db, buyer, q, quantity, true).Ok?
    ensures CartOf(AddItem(db, buyer, q, quantity, true).value, buyer).items == [item, CartItem(q, quantity)]
  {
    assert FindItem([item], q).None?;
  }

  // ----- deleting a product -----

  function Swept(carts: map<UserId, Cart>, p: ProductId, swept: set<UserId>): map<UserId, Cart> {
    map u | u in carts :: if u in swept then carts[u].(items := DropItem(carts[u].items, p)) else carts[u]
  }

  /** The replica row is rechecked as it is written and its dependents are deleted by product id; but only
      the cart rows that were there when they were swept go, in the carts of `swept`. */
  function DeletionWrites(db: Db, p: ProductId, version: nat, swept: set<UserId>): Db {
    if p !in db.products || db.products[p].version >= version then db
    else db.(products := db.products[p := db.products[p].(deleted := true, version := version)],
             carts := Swept(db.carts, p, swept),
             inventory := db.inventory - {p},
             pending := db.pending - {p})
  }

  /** No cart that was not swept holds the product, or the deletion comes too late to do anything. */
  ghost predicate AllSwept(db: Db, p: ProductId, version: nat, swept: set<UserId>) {
    || p !in db.products || db.products[p].version >= version
    || forall u :: u in db.carts && FindItem(db.carts[u].items, p).Some? ==> u in swept
  }

  lemma {:induction false} DropNothing(items: seq<CartItem>, p: ProductId)
    requires FindItem(items, p).None?
    ensures DropItem(items, p) == items
  {
    if items != [] {
      DropNothing(items[..|items| - 1], p);
    }
  }

  lemma SweptCarts(carts: map<UserId, Cart>, p: ProductId, swept: set<UserId>)
    requires forall u :: u in carts && FindItem(carts[u].items, p).Some? ==> u in swept
    ensures Swept(carts, p, swept) == map u | u in carts :: carts[u].(items := DropItem(carts[u].items, p))
  {
    hide DropItem;
    forall u | u in carts && u !in swept ensures DropItem(carts[u].items, p) == carts[u].items {
      DropNothing(carts[u].items, p);
    }
  }

  lemma SweptIsWhole(db: Db, p: ProductId, version: nat, swept: set<UserId>)
    requires AllSwept(db, p, version, swept)
    ensures ReplicateDeletion(db, p, version) == Ok(DeletionWrites(db, p, version, swept))
  {
    hide DropItem, Swept;
    if p in db.products && db.products[p].version < version {
      SweptCarts(db.carts, p, swept);
      var whole := map u | u in db.carts :: db.carts[u].(items := DropItem(db.carts[u].items, p));
      assert whole == Swept(db.carts, p, swept);
      assert ReplicateDeletion(db, p, version).value.carts == whole;
    }
  }

  /** The writes keep replicas and carts coherent if and only if every cart holding the product was swept. */
  lemma DeletionWritesIff(db: Db, p: ProductId, version: nat, swept: set<UserId>, home: ProductId -> StoreId)
    requires Replica(db, home)
    ensures Replica(DeletionWrites(db, p, version, swept), home) <==> AllSwept(db, p, version, swept)
  {
    if AllSwept(db, p, version, swept) {
      SweptIsWhole(db, p, version, swept);
      DeletionKeepsReplica(db, p, version, home);
    } else {
      var u :| u in db.carts && FindItem(db.carts[u].items, p).Some? && u !in swept;
      var d := DeletionWrites(db, p, version, swept);
      var i := FindItem(db.carts[u].items, p).value;
      assert d.carts[u].items[i].product !in d.inventory;
      assert !CartOk(d.inventory, d.carts[u], home);
    }
  }

  lemma AddedIsThere(db: Db, buyer: UserId, p: ProductId, quantity: int)
    requires AddItem(db, buyer, p, quantity, true).Ok?
    ensures
      var added := AddItem(db, buyer, p, quantity, true).value;
      && added.products == db.products && p in db.products
      && buyer in added.carts && FindItem(added.carts[buyer].items, p).Some?
  {
    var items := AddItem(db, buyer, p, quantity, true).value.carts[buyer].items;
    var at := FindItem(CartOf(db, buyer).items, p);
    if at.Some? {
      assert items[at.value].product == p;
    } else {
      assert items[|items| - 1].product == p;
    }
  }

  lemma UnsweptHoldsTombstone(db: Db, buyer: UserId, p: ProductId, version: nat, home: ProductId -> StoreId)
    requires Replica(db, home) && p in db.products && version > db.products[p].version
    requires buyer in db.carts && FindItem(db.carts[buyer].items, p).Some?
    ensures
      var d := DeletionWrites(db, p, version, {});
      Tombstoned(d, p) && FindItem(CartOf(d, buyer).items, p).Some? && !Replica(d, home)
  {
    DeletionWritesIff(db, p, version, {}, home);
    hide Replica;
    assert !AllSwept(db, p, version, {}) by { assert buyer !in {}; }
  }

  /** A whole add between the sweep and the commit of a deletion: the tombstone is in a cart. */
  lemma SplitDeletionMissesAdd(
    db: Db, buyer: UserId, p: ProductId, quantity: int, version: nat, home: ProductId -> StoreId)
    requires Replica(db, home) && AddItem(db, buyer, p, quantity, true).Ok?
    requires forall u :: u in db.carts ==> FindItem(db.carts[u].items, p).None?
    requires version > db.products[p].version
    ensures AllSwept(db, p, version, {})
    ensures
      var added := AddItem(db, buyer, p, quantity, true).value;
      && Replica(added, home)
      && var d := DeletionWrites(added, p, version, {});
      && Tombstoned(d, p) && FindItem(CartOf(d, buyer).items, p).Some? && !Replica(d, home)
  {
    AddedIsThere(db, buyer, p, quantity);
    hide Replica, AddItem, DeletionWrites;
    AddItemKeepsReplica(db, buyer, p, quantity, true, home);
    UnsweptHoldsTombstone(AddItem(db, buyer, p, quantity, true).value, buyer, p, version, home);
  }

  // ----- rows of a cart, by their id -----

  /** The removal of a row by one that saw others: the store stays. It always keeps carts coherent; two of
      these at once leave an empty cart that names a store, which is healed when it is next read. */
  function DropWrites(db: Db, buyer: UserId, p: ProductId): Db {
    if buyer !in db.carts then db
    else db.(carts := db.carts[buyer := db.carts[buyer].(items := DropItem(db.carts[buyer].items, p))])
  }

  lemma DropWritesKeepReplica(db: Db, buyer: UserId, p: ProductId, home: ProductId -> StoreId)
    requires Replica(db, home)
    ensures Replica(DropWrites(db, buyer, p), home)
  {
    if buyer in db.carts {
      var cart := db.carts[buyer];
      DropItemKeeps(cart.items, p);
      CartOfOk(db, buyer, home);
      var left := DropItem(cart.items, p);
      forall i | 0 <= i < |left| ensures left[i] in cart.items {
        assert left[i] in left;
      }
      assert CartOk(db.inventory, cart.(items := left), home);
      PutCartKeepsReplica(db, buyer, cart.(items := left), home);
    }
  }

  /** A new quantity for a row that may be gone by now. */
  function QuantityWrites(db: Db, buyer: UserId, p: ProductId, quantity: nat): Db {
    var at := FindItem(CartOf(db, buyer).items, p);
    if buyer !in db.carts || at.None? then db
    else db.(carts := db.carts[buyer := db.carts[buyer].(items := db.carts[buyer].items[at.value := CartItem(p, quantity)])])
  }

  lemma QuantityWritesKeepReplica(db: Db, buyer: UserId, p: ProductId, quantity: nat, home: ProductId -> StoreId)
    requires Replica(db, home) && quantity >= 1
    ensures Replica(QuantityWrites(db, buyer, p, quantity), home)
  {
    var at := FindItem(CartOf(db, buyer).items, p);
    if buyer in db.carts && at.Some? {
      CartOfOk(db, buyer, home);
      ChangedItemOk(db.inventory, db.carts[buyer], at.value, quantity, home);
      hide Replica, CartOk;
      PutCartKeepsReplica(db, buyer, QuantityWrites(db, buyer, p, quantity).carts[buyer], home);
    }
  }

  // ----- a checkout -----

  /** The writes of a checkout for what it read before: each rechecks its own row. */
  function CheckoutWrites(db: Db, buyer: UserId, items: seq<CartItem>, discount: Option<Discount>, order: Order)
    : Result<Db, Error>
  {
    var shelf := Reserve(ShelfOf(db), Sorted(items));
    if Balance(db, buyer) < order.total || shelf.None? then Err(Invalid)
    else if discount.Some? && discount.value.kind.FromVoucher?
            && (discount.value.kind.row >= |db.vouchers| || db.vouchers[discount.value.kind.row].remaining <= 0) then Err(Invalid)
    else Ok(Placed(db, buyer, shelf.value, discount, order))
  }

  lemma CheckoutIsQuoteAndWrites(db: Db, buyer: UserId, req: Request)
    ensures
      var q := CommerceService.Quoted(db, buyer, req);
      Checkout(db, buyer, req) == if q.Err? then Err(q.error) else CheckoutWrites(db, buyer, q.value.0, q.value.1, q.value.2)
  {
    CommerceService.CheckoutIsQuoteAndCharge(db, buyer, req);
    hide Checkout, CommerceService.Quoted, Reserve, Sorted, Placed;
  }

  /** Two checkouts that read the same cart: both go through if and only if what the first left still pays
      for, stocks and discounts a second order, where one after the other the second finds no cart.
      Wallet, stock and voucher are charged for both; the one cart is sold twice. */
  lemma SplitCheckoutSellsTwice(db: Db, buyer: UserId, req: Request)
    requires Checkout(db, buyer, req).Ok?
    ensures
      var q := CommerceService.Quoted(db, buyer, req);
      var first := Checkout(db, buyer, req).value;
      && q.Ok? && Checkout(first, buyer, req) == Err(Invalid)
      && var second := CheckoutWrites(first, buyer, q.value.0, q.value.1, q.value.2);
      && (second.Ok? <==>
            && Balance(db, buyer) >= 2 * q.value.2.total
            && Reserve(ShelfOf(first), Sorted(q.value.0)).Some?
            && (q.value.1.Some? && q.value.1.value.kind.FromVoucher? ==>
                  q.value.1.value.kind.row < |db.vouchers| && db.vouchers[q.value.1.value.kind.row].remaining >= 2))
      && (second.Ok? ==> second.value.orders == db.orders + [q.value.2, q.value.2])
  {
    var q := CommerceService.Quoted(db, buyer, req);
    CheckoutIsQuoteAndWrites(db, buyer, req);
    hide CommerceService.Quoted, Reserve, Sorted;
    var first := Checkout(db, buyer, req).value;
    assert q.Ok?;
    assert req.addressFound && first == CheckoutWrites(db, buyer, q.value.0, q.value.1, q.value.2).value;
    assert CartOf(first, buyer) == Cart(None, []);
    assert Balance(first, buyer) == Balance(db, buyer) - q.value.2.total;
    assert first.vouchers == UseVoucher(db.vouchers, q.value.1);
    assert first.orders == db.orders + [q.value.2];
  }
}

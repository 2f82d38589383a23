/** Carts as what a buyer sees: how many units of each product. */
module CommerceCart {
  import opened Prelude
  import opened Contracts
  import opened Commerce
  import opened CommerceReplica
  import opened CommerceStock

  /** Units of `p` in the buyer's cart. */
  function InCart(db: Db, buyer: UserId, p: ProductId): int { Ordered(CartOf(db, buyer).items, p) }

  lemma {:induction false} NotOrdered(items: seq<CartItem>, p: ProductId)
    requires forall i :: 0 <= i < |items| ==> items[i].product != p
    ensures Ordered(items, p) == 0
  {
    if items != [] {
      NotOrdered(items[..|items| - 1], p);
    }
  }

  /** Products are distinct, so a product's units are its one row's. */
  lemma {:induction false} OrderedIsRow(items: seq<CartItem>, i: nat)
    requires Distinct(items) && i < |items|
    ensures Ordered(items, items[i].product) == items[i].quantity
  {
    var init, last := items[..|items| - 1], items[|items| - 1];
    if i < |init| {
      OrderedIsRow(init, i);
    } else {
      NotOrdered(init, last.product);
    }
  }

  lemma {:induction false} OrderedAfterDrop(items: seq<CartItem>, p: ProductId, q: ProductId)
    ensures Ordered(DropItem(items, p), q) == if q == p then 0 else Ordered(items, q)
  {
    if items != [] {
      var init, last := DropItem(items[..|items| - 1], p), items[|items| - 1];
      OrderedAfterDrop(items[..|items| - 1], p, q);
      SumAppend(init, last, QuantityOf(q));
    }
  }

  lemma AddedElsewhere(db: Db, buyer: UserId, p: ProductId, quantity: int, synced: bool)
    requires AddItem(db, buyer, p, quantity, synced).Ok?
    ensures
      var after := AddItem(db, buyer, p, quantity, synced).value;
      && p in db.products && CartOf(after, buyer).store == Some(db.products[p].store)
      && (forall other :: other != buyer ==> CartOf(after, other) == CartOf(db, other))
  {
  }

  lemma AddedUnits(db: Db, buyer: UserId, p: ProductId, quantity: int, synced: bool, q: ProductId)
    requires AddItem(db, buyer, p, quantity, synced).Ok? && Distinct(CartOf(db, buyer).items)
    ensures
      var after := AddItem(db, buyer, p, quantity, synced).value;
      && p in db.inventory
      && InCart(after, buyer, q) == InCart(db, buyer, q) + (if q == p then quantity else 0)
      && (q == p ==> InCart(after, buyer, q) <= db.inventory[p].units)
  {
    hide Sum;
    var items := CartOf(db, buyer).items;
    var at := FindItem(items, p);
    if at.Some? {
      SumUpdate(items, at.value, CartItem(p, items[at.value].quantity + quantity), QuantityOf(q));
      OrderedIsRow(items, at.value);
    } else {
      SumAppend(items, CartItem(p, quantity), QuantityOf(q));
      NotOrdered(items, p);
    }
  }

  /** Adding adds exactly the asked units of that product, within its stock, and leaves every other
      product and every other cart alone. */
  lemma AddingAddsUnits(db: Db, buyer: UserId, p: ProductId, quantity: int, synced: bool, q: ProductId, home: ProductId -> StoreId)
    requires Replica(db, home) && AddItem(db, buyer, p, quantity, synced).Ok?
    ensures
      var after := AddItem(db, buyer, p, quantity, synced).value;
      && p in db.inventory
      && InCart(after, buyer, q) == InCart(db, buyer, q) + (if q == p then quantity else 0)
      && (q == p ==> InCart(after, buyer, q) <= db.inventory[p].units)
      && (forall other :: other != buyer ==> CartOf(after, other) == CartOf(db, other))
      && CartOf(after, buyer).store == Some(home(p))
  {
    hide AddItem, InCart, CartOf;
    CartOfOk(db, buyer, home);
    AddedElsewhere(db, buyer, p, quantity, synced);
    AtHome(db, p, home);
    AddedUnits(db, buyer, p, quantity, synced, q);
  }

  /** Setting a quantity leaves exactly that many units, within stock, and nothing else changes. */
  lemma SettingSetsUnits(db: Db, buyer: UserId, p: ProductId, quantity: int, q: ProductId, home: ProductId -> StoreId)
    requires Replica(db, home) && SetQuantity(db, buyer, p, quantity).Ok?
    ensures
      var after := SetQuantity(db, buyer, p, quantity).value;
      && InCart(after, buyer, q) == (if q == p then quantity else InCart(db, buyer, q))
      && 1 <= quantity <= db.inventory[p].units
      && (forall other :: other != buyer ==> CartOf(after, other) == CartOf(db, other))
  {
    CartOfOk(db, buyer, home);
    hide Replica, Sum;
    var items := CartOf(db, buyer).items;
    var at := FindItem(items, p).value;
    SumUpdate(items, at, CartItem(p, quantity), QuantityOf(q));
    OrderedIsRow(items, at);
  }

  /** Removing takes all units of that product, and the last removal frees the cart for any store. */
  lemma RemovingTakesUnits(db: Db, buyer: UserId, p: ProductId, q: ProductId)
    requires RemoveItem(db, buyer, p).Ok?
    ensures
      var after := RemoveItem(db, buyer, p).value;
      && InCart(after, buyer, q) == (if q == p then 0 else InCart(db, buyer, q))
      && (CartOf(after, buyer).items == [] ==> CartOf(after, buyer).store == None)
      && (forall other :: other != buyer ==> CartOf(after, other) == CartOf(db, other))
  {
    OrderedAfterDrop(CartOf(db, buyer).items, p, q);
    hide Sum, DropItem;
  }

  /** Removing what was just added to a cart without that product gives the same units back. */
  lemma RemoveUndoesAdd(db: Db, buyer: UserId, p: ProductId, quantity: int, synced: bool, q: ProductId, home: ProductId -> StoreId)
    requires Replica(db, home) && AddItem(db, buyer, p, quantity, synced).Ok? && InCart(db, buyer, p) == 0
    ensures
      var added := AddItem(db, buyer, p, quantity, synced).value;
      RemoveItem(added, buyer, p).Ok? && InCart(RemoveItem(added, buyer, p).value, buyer, q) == InCart(db, buyer, q)
  {
    var added := AddItem(db, buyer, p, quantity, synced).value;
    AddingAddsUnits(db, buyer, p, quantity, synced, q, home);
    AddingAddsUnits(db, buyer, p, quantity, synced, p, home);
    assert quantity > 0;
    hide Sum, Replica, AddItem;
    var items := CartOf(added, buyer).items;
    if FindItem(items, p).None? {
      NotOrdered(items, p);
    }
    RemovingTakesUnits(added, buyer, p, q);
  }
}

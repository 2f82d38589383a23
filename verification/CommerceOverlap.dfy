/** Runs in which transactions overlap: any of them may read at some points and write at a later one, each
    of its statements seeing what was committed by then. The laws of the commerce runs hold throughout if
    and only if, whenever such a write goes through, what it read still holds. */
module CommerceOverlap {
  import opened Prelude
  import opened Contracts
  import opened Pricing
  import opened Commerce
  import opened CommerceMoney
  import opened CommerceReplica
  import opened CommerceStock
  import opened CommerceOrders
  import opened CommerceCheckout
  import opened CommerceCart
  import opened CommerceSplit
  import CommerceService

  /** What commerce promises at every moment: replicas and carts, orders and jobs, money, stock, vouchers. */
  ghost predicate Laws(db: Db, home: ProductId -> StoreId) {
    Replica(db, home) && Lifecycle(db, home) && Money(db) && StockOk(db) && VouchersOk(db)
  }

  /** The transactions whose writes rest on an earlier, unlocked read. `deleted` are the products whose
      rows the cart's emptying deleted or found gone, `swept` the buyers whose carts a deletion went over. */
  datatype Write =
    | Processing(seller: UserId, order: OrderId)
    | StockSetting(owner: UserId, stocked: ProductId, units: nat)
    | Adding(buyer: UserId, added: ProductId, quantity: int, synced: bool)
    | Emptying(buyer: UserId, deleted: set<ProductId>)
    | CheckingOut(buyer: UserId, req: Request, deleted: set<ProductId>)
    | Deleting(product: ProductId, version: nat, swept: set<UserId>)
    | Dropping(buyer: UserId, dropped: ProductId)
    | Setting(buyer: UserId, changed: ProductId, quantity: int)

  /** What the successive reads of one transaction saw; other transactions may have committed in between. */
  datatype Seen = Seen(first: Db, second: Db, third: Db)

  function Together(db: Db): Seen { Seen(db, db, db) }

  /** An add reads the product, then the row of the cart, then the row of the item. */
  function SeenCart(seen: Seen, buyer: UserId): Cart {
    Cart(CartOf(seen.second, buyer).store, CartOf(seen.third, buyer).items)
  }

  /** A checkout reads the row of the cart, then its items with their products, then the code. */
  function QuotedApart(seen: Seen, buyer: UserId, req: Request): Result<(seq<CartItem>, Option<Discount>, Order), Error> {
    var store := CartOf(seen.first, buyer).store;
    if !req.addressFound then Err(NotFound)
    else if store.None? then Err(Invalid)
    else
      var items := Joined(seen.second, CartOf(seen.second, buyer).items);
      var lines := Priced(seen.second, items);
      if items == [] then Err(Invalid)
      else
        var discount := Discounted(seen.third, req.code, Subtotal(lines), req.now, req.pick);
        if discount.Err? then Err(discount.error)
        else
          var totals := CalculateTotals(Subtotal(lines), req.delivery, req.fees, AmountOff(discount.value));
          Ok((items, discount.value, NewOrder(buyer, store.value, req, lines, discount.value, totals)))
  }

  /** The guards, passed on what was read. */
  ghost predicate Begun(seen: Seen, w: Write) {
    match w
    case Processing(seller, o) =>
      && o < |seen.second.orders| && seen.second.orders[o].store in seen.first.stores
      && seen.first.stores[seen.second.orders[o].store].seller == seller && seen.second.orders[o].status == SedangDikemas
    case StockSetting(owner, p, _) =>
      var db := seen.first;
      Live(db, p) && db.products[p].store in db.stores && db.stores[db.products[p].store].seller == owner
    case Adding(buyer, p, quantity, synced) =>
      var db, cart := seen.first, SeenCart(seen, buyer);
      && quantity > 0 && synced && p in db.products && p in db.inventory && db.inventory[p].units >= quantity
      && (cart.store.None? || cart.store.value == db.products[p].store)
      && var at := FindItem(cart.items, p);
      at.Some? ==> db.inventory[p].units >= cart.items[at.value].quantity + quantity
    case Emptying(buyer, deleted) => Emptied(seen.third, buyer, deleted)
    case CheckingOut(buyer, req, _) => QuotedApart(seen, buyer, req).Ok?
    case Deleting(p, version, swept) => AllSwept(seen.third, p, version, swept)
    case Dropping(buyer, p) => FindItem(CartOf(seen.third, buyer).items, p).Some?
    case Setting(buyer, p, quantity) => quantity >= 1 && FindItem(CartOf(seen.second, buyer).items, p).Some?
  }

  /** The writes, on the state they find. */
  function Writes(seen: Seen, db: Db, w: Write): Result<Db, Error> {
    match w
    case Processing(_, o) => if o < |db.orders| then ProcessWrites(db, o) else Err(NotFound)
    case StockSetting(_, p, units) => Ok(StockWrites(db, p, units))
    case Adding(buyer, p, quantity, _) =>
      if p !in seen.first.products || quantity <= 0 then Err(NotFound)
      else AddWrites(db, buyer, SeenCart(seen, buyer), p, seen.first.products[p].store, quantity)
    case Emptying(buyer, deleted) => Ok(ClearWrites(db, buyer, deleted))
    case CheckingOut(buyer, req, deleted) =>
      var q := QuotedApart(seen, buyer, req);
      if q.Err? then Err(q.error)
      else
        var r := CheckoutWrites(db, buyer, q.value.0, q.value.1, q.value.2);
        if r.Err? then r
        else Ok(r.value.(carts := db.carts[buyer := Cart(None, Left(CartOf(db, buyer).items, deleted))]))
    case Deleting(p, version, swept) => Ok(DeletionWrites(db, p, version, swept))
    case Dropping(buyer, p) => Ok(DropWrites(db, buyer, p))
    case Setting(buyer, p, quantity) => if quantity <= 0 then Err(Invalid) else Ok(QuantityWrites(db, buyer, p, quantity))
  }

  /** The part of the guards that the writes do not recheck themselves; and for a checkout, that the cart
      named one store when its row and when its items were read. */
  ghost predicate StillTrue(seen: Seen, db: Db, w: Write, home: ProductId -> StoreId) {
    match w
    case Processing(_, o) => o < |db.orders| && db.orders[o].status == SedangDikemas
    case StockSetting(_, p, _) => Live(db, p)
    case Adding(buyer, p, _, _) => StillFits(db, buyer, SeenCart(seen, buyer), p, home)
    case Emptying(buyer, deleted) => Emptied(db, buyer, deleted)
    case CheckingOut(buyer, _, deleted) => OneStore(seen, buyer) && Emptied(db, buyer, deleted)
    case Deleting(p, version, swept) => AllSwept(db, p, version, swept)
    case Dropping(_, _) => true
    case Setting(_, _, _) => true
  }

  predicate OneStore(seen: Seen, buyer: UserId) { CartOf(seen.first, buyer).store == CartOf(seen.second, buyer).store }

  lemma QuotedTogether(db: Db, buyer: UserId, req: Request)
    ensures QuotedApart(Together(db), buyer, req) == CommerceService.Quoted(db, buyer, req)
  {
    hide Joined, Priced, Subtotal, Discounted, CalculateTotals, NewOrder;
  }

  /** Reading and writing at one point, emptying the whole cart, is the whole transaction. */
  lemma CheckingOutTogether(db: Db, buyer: UserId, req: Request, deleted: set<ProductId>)
    requires Emptied(db, buyer, deleted)
    ensures Writes(Together(db), db, CheckingOut(buyer, req, deleted)) == Checkout(db, buyer, req)
  {
    QuotedTogether(db, buyer, req);
    CheckoutIsQuoteAndWrites(db, buyer, req);
    LeftIsEmptyIff(CartOf(db, buyer).items, deleted);
    assert Left(CartOf(db, buyer).items, deleted) == [];
    hide QuotedApart, CommerceService.Quoted, Checkout, CheckoutWrites, Left, Emptied, Together;
    var q := CommerceService.Quoted(db, buyer, req);
    if q.Ok? && CheckoutWrites(db, buyer, q.value.0, q.value.1, q.value.2).Ok? {
      PlacedCarts(db, buyer, q.value.0, q.value.1, q.value.2);
      var placed := CheckoutWrites(db, buyer, q.value.0, q.value.1, q.value.2).value;
      assert placed.(carts := placed.carts) == placed;
    }
  }

  lemma EmptyingTogether(db: Db, buyer: UserId, deleted: set<ProductId>)
    requires Emptied(db, buyer, deleted)
    ensures ClearWrites(db, buyer, deleted) == ClearCart(db, buyer)
  {
    LeftIsEmptyIff(CartOf(db, buyer).items, deleted);
  }

  lemma AddingTogether(db: Db, buyer: UserId, p: ProductId, quantity: int, synced: bool)
    requires Begun(Together(db), Adding(buyer, p, quantity, synced))
    ensures Writes(Together(db), db, Adding(buyer, p, quantity, synced)) == AddItem(db, buyer, p, quantity, synced)
  {
    hide ProcessWrites, StockWrites, ClearWrites, CheckoutWrites, DeletionWrites, DropWrites, QuantityWrites;
    hide QuotedApart, Emptied, AllSwept;
    var cart := CartOf(db, buyer);
    assert SeenCart(Together(db), buyer) == cart;
  }

  /** So are the other writes: whoever may begin one and finds what was read does the whole transaction. A
      removal is a drop while something is left in the cart, and an emptying when nothing is. */
  lemma OthersTogether(db: Db, w: Write)
    requires Begun(Together(db), w) && !w.CheckingOut?
    ensures
      var r := Writes(Together(db), db, w);
      match w
      case Processing(seller, o) => r == ProcessOrder(db, seller, o)
      case StockSetting(owner, p, units) => r == SetStock(db, owner, p, units)
      case Adding(buyer, p, quantity, synced) => r == AddItem(db, buyer, p, quantity, synced)
      case Emptying(buyer, _) => r == Ok(ClearCart(db, buyer))
      case Deleting(p, version, _) => r == ReplicateDeletion(db, p, version)
      case Dropping(buyer, p) =>
        var removed := RemoveItem(db, buyer, p);
        && removed.Ok?
        && (removed.value.carts[buyer].items != [] ==> r == removed)
        && (removed.value.carts[buyer].items == [] ==> removed == Ok(ClearCart(db, buyer)))
      case Setting(buyer, p, quantity) => SetQuantity(db, buyer, p, quantity).Ok? ==> r == SetQuantity(db, buyer, p, quantity)
  {
    match w
    case Adding(buyer, p, quantity, synced) => AddingTogether(db, buyer, p, quantity, synced);
    case Emptying(buyer, deleted) => EmptyingTogether(db, buyer, deleted);
    case Deleting(p, version, swept) => SweptIsWhole(db, p, version, swept);
    case _ => hide QuotedApart, CheckoutWrites, DeletionWrites, AddWrites, AddItem, DropItem, ReplicateDeletion, Left;
  }

  // ----- each write -----

  lemma CartsFrameKeepsLaws(db: Db, carts: map<UserId, Cart>, home: ProductId -> StoreId)
    requires Laws(db, home)
    ensures var d := db.(carts := carts); Lifecycle(d, home) && Money(d) && StockOk(d) && VouchersOk(d)
  {
    var d := db.(carts := carts);
    UntouchedKeepsMoney(db, d) by { hide Money, Replica, Lifecycle, StockOk, VouchersOk; }
    hide Money, Replica;
    SameOrdersKeepOrdersOk(db, d, home);
    assert CompletionsFrame(db, d);
    hide OrdersOk, StockOk, VouchersOk;
    FrameKeepsCompletions(db, d);
    CartsAreNotStock(db, carts);
    SameOrdersKeepVouchers(db, d);
  }

  lemma CartsAreNotStock(db: Db, carts: map<UserId, Cart>)
    requires StockOk(db)
    ensures StockOk(db.(carts := carts))
  {
    assert ShelfOf(db.(carts := carts)) == ShelfOf(db);
  }

  lemma ProcessingKeepsLaws(db: Db, o: OrderId, home: ProductId -> StoreId)
    requires Laws(db, home) && o < |db.orders| && db.orders[o].status == SedangDikemas
    requires ProcessWrites(db, o).Ok?
    ensures Laws(ProcessWrites(db, o).value, home)
  {
    var d := ProcessWrites(db, o).value;
    hide Money, Replica, Lifecycle, VouchersOk;
    ProcessWritesInOrder(db, o, home);
    UntouchedKeepsMoney(db, d);
    SameKeysKeepReplica(db, d, home);
    assert ShelfOf(d) == ShelfOf(db);
    SameOrdersKeepVouchers(db, d);
  }

  lemma StockSettingKeepsLaws(db: Db, p: ProductId, units: nat, home: ProductId -> StoreId)
    requires Laws(db, home) && Live(db, p)
    ensures Laws(StockWrites(db, p, units), home)
  {
    var d := StockWrites(db, p, units);
    assert p in db.inventory <==> Live(db, p);
    StockWritesIff(db, p, units, home);
    PutKeepsShelves(ShelfOf(db), p, units) by { hide Money, Replica, Lifecycle, VouchersOk; }
    hide Replica;
    UntouchedKeepsMoney(db, d) by { hide Money; }
    hide Money;
    SameOrdersKeepOrdersOk(db, d, home);
    assert CompletionsFrame(db, d);
    assert ShelfOf(d) == Put(ShelfOf(db), p, units);
    hide OrdersOk, VouchersOk;
    FrameKeepsCompletions(db, d);
    SameOrdersKeepVouchers(db, d);
  }

  // ----- a checkout that read earlier -----

  /** What an order placed for `items` must be, whenever it was quoted. */
  ghost predicate Fair(buyer: UserId, items: seq<CartItem>, discount: Option<Discount>, order: Order) {
    && order.buyer == buyer && order.status == SedangDikemas && order.history == [SedangDikemas]
    && (forall p :: Units(order.lines, p) == Ordered(items, p))
    && (order.discountType == Some(VoucherCode) <==> discount.Some? && discount.value.kind.FromVoucher?)
    && (discount.Some? ==> order.discountCode == Some(discount.value.code))
  }

  lemma QuoteIsFair(seen: Seen, buyer: UserId, req: Request, home: ProductId -> StoreId)
    requires QuotedApart(seen, buyer, req).Ok?
    ensures var q := QuotedApart(seen, buyer, req).value; Fair(buyer, q.0, q.1, q.2)
    ensures
      var discount := QuotedApart(seen, buyer, req).value.1;
      discount.Some? && discount.value.kind.FromVoucher? ==>
        discount.value.kind.row < |seen.third.vouchers|
        && seen.third.vouchers[discount.value.kind.row].code == discount.value.code
  {
    hide CalculateTotals, Joined, Upper, Trim, CartOf;
    var q := QuotedApart(seen, buyer, req).value;
    forall p ensures Units(q.2.lines, p) == Ordered(q.0, p) {
      PricedUnits(seen.second, q.0, p);
    }
  }

  /** The order is of its cart's own store if and only if the cart named that store both times. */
  lemma QuotedLinesIff(seen: Seen, buyer: UserId, req: Request, home: ProductId -> StoreId)
    requires Replica(seen.second, home) && QuotedApart(seen, buyer, req).Ok?
    ensures LinesOk(QuotedApart(seen, buyer, req).value.2, home) <==> OneStore(seen, buyer)
  {
    QuotedParts(seen, buyer, req);
    hide QuotedApart;
    CartOfOk(seen.second, buyer, home);
    var cart := CartOf(seen.second, buyer);
    var items, order := QuotedApart(seen, buyer, req).value.0, QuotedApart(seen, buyer, req).value.2;
    JoinedKeeps(seen.second, cart.items);
    assert items[0] in cart.items && cart.store == Some(home(items[0].product));
    assert order.lines[0].product == Some(items[0].product);
    if OneStore(seen, buyer) {
      PricedLinesOk(seen.second, cart, order, home);
    }
  }

  lemma QuotedParts(seen: Seen, buyer: UserId, req: Request)
    requires QuotedApart(seen, buyer, req).Ok?
    ensures
      var q := QuotedApart(seen, buyer, req).value;
      && q.0 == Joined(seen.second, CartOf(seen.second, buyer).items) && q.0 != []
      && q.2.lines == Priced(seen.second, q.0) && Some(q.2.store) == CartOf(seen.first, buyer).store
  {
    hide Joined, Discounted, CalculateTotals, Subtotal;
  }

  /** Vouchers are only ever appended, and their codes never change. */
  ghost predicate CodesKept(a: Db, b: Db) {
    |a.vouchers| <= |b.vouchers| && forall i :: 0 <= i < |a.vouchers| ==> b.vouchers[i].code == a.vouchers[i].code
  }

  lemma PlacedKeepsStock(
    db: Db, items: seq<CartItem>, order: Order, d: Db, home: ProductId -> StoreId)
    requires StockOk(db) && Replica(db, home) && Reserve(ShelfOf(db), Sorted(items)).Some?
    requires ShelfOf(d) == Reserve(ShelfOf(db), Sorted(items)).value && d.products == db.products
    ensures StockOk(d)
  {
    hide CartsOk, ShelfOk, Sorted;
    ReserveTakes(ShelfOf(db), Sorted(items), 0);
    forall p | p !in d.products ensures History(d.outbox, p) == [] {
      Unstocked(db, p, home);
      ReserveTakes(ShelfOf(db), Sorted(items), p);
    }
  }

  lemma PlacedKeepsOrders(db: Db, d: Db, order: Order, home: ProductId -> StoreId)
    requires OrdersOk(db, home) && d.orders == db.orders + [order] && d.jobs == db.jobs
    requires order.status == SedangDikemas && order.history == [SedangDikemas] && LinesOk(order, home)
    ensures OrdersOk(d, home)
  {
    forall o | 0 <= o < |d.orders| ensures OrderOk(d, o, home) {
      if o < |db.orders| {
        assert OrderOk(db, o, home);
      }
    }
  }

  lemma PlacedKeepsCompletions(db: Db, items: seq<CartItem>, order: Order, d: Db)
    requires CompletionsOk(db) && Reserve(ShelfOf(db), Sorted(items)).Some?
    requires ShelfOf(d) == Reserve(ShelfOf(db), Sorted(items)).value
    requires d.orders == db.orders + [order] && order.status == SedangDikemas
    ensures CompletionsOk(d)
  {
    ReserveAppends(ShelfOf(db), Sorted(items));
    hide CompletionsOk, Reserve;
    FrameKeepsCompletions(db, d);
  }

  /** Everything but the cart: the writes recheck balance, stock and voucher, and an order that was fair and
      of one store when it was quoted is so still. */
  lemma CheckoutWritesKeepLaws(
    db: Db, buyer: UserId, items: seq<CartItem>, discount: Option<Discount>, order: Order, home: ProductId -> StoreId)
    requires Laws(db, home) && Fair(buyer, items, discount, order) && LinesOk(order, home)
    requires CheckoutWrites(db, buyer, items, discount, order).Ok?
    requires discount.Some? && discount.value.kind.FromVoucher? && discount.value.kind.row < |db.vouchers| ==>
      db.vouchers[discount.value.kind.row].code == discount.value.code
    ensures Laws(CheckoutWrites(db, buyer, items, discount, order).value, home)
  {
    var d := CheckoutWrites(db, buyer, items, discount, order).value;
    hide Money, OrdersOk, CompletionsOk, StockOk, VouchersOk, Replica, Reserve, Sorted, LinesOk, UseVoucher;
    assert ShelfOf(d) == Reserve(ShelfOf(db), Sorted(items)).value;
    PaymentKeepsMoney(db, d, order);
    PlacedKeepsStock(db, items, order, d, home);
    PlacedKeepsOrders(db, d, order, home);
    PlacedKeepsCompletions(db, items, order, d);
    ReserveKeys(ShelfOf(db), Sorted(items));
    SameKeysKeepReplica(db, d, home);
    PlacedKeepsVouchers(db, d, order, discount);
  }

  /** An order of another store's products breaks the laws whatever becomes of the cart. */
  lemma ForeignOrderBreaksLaws(
    db: Db, buyer: UserId, items: seq<CartItem>, discount: Option<Discount>, order: Order, carts: map<UserId, Cart>,
    home: ProductId -> StoreId)
    requires CheckoutWrites(db, buyer, items, discount, order).Ok? && !LinesOk(order, home)
    ensures !Laws(CheckoutWrites(db, buyer, items, discount, order).value.(carts := carts), home)
  {
    var d := CheckoutWrites(db, buyer, items, discount, order).value.(carts := carts);
    hide Money, Replica, StockOk, VouchersOk, CompletionsOk, Reserve, Sorted, LinesOk, PathOk, JobOk;
    assert d.orders[|db.orders|] == order;
    assert !OrderOk(d, |db.orders|, home);
  }

  lemma EmptyingAfterPlacing(
    db: Db, buyer: UserId, items: seq<CartItem>, discount: Option<Discount>, order: Order,
    deleted: set<ProductId>, home: ProductId -> StoreId)
    requires Laws(db, home) && Fair(buyer, items, discount, order)
    requires CheckoutWrites(db, buyer, items, discount, order).Ok?
    requires discount.Some? && discount.value.kind.FromVoucher? && discount.value.kind.row < |db.vouchers| ==>
      db.vouchers[discount.value.kind.row].code == discount.value.code
    ensures
      var placed := CheckoutWrites(db, buyer, items, discount, order).value;
      Laws(placed.(carts := db.carts[buyer := Cart(None, Left(CartOf(db, buyer).items, deleted))]), home)
      <==> LinesOk(order, home) && Emptied(db, buyer, deleted)
  {
    hide CheckoutWrites, Fair, Laws, LinesOk;
    var placed := CheckoutWrites(db, buyer, items, discount, order).value;
    var left := Left(CartOf(db, buyer).items, deleted);
    if LinesOk(order, home) {
      CheckoutWritesKeepLaws(db, buyer, items, discount, order, home);
      LeftIsEmptyIff(CartOf(db, buyer).items, deleted);
      PlacedCarts(db, buyer, items, discount, order);
      hide Left, CartOf;
      assert db.carts[buyer := Cart(None, left)] == placed.carts[buyer := Cart(None, left)];
      EmptiedCartIff(placed, buyer, left, home);
    } else {
      ForeignOrderBreaksLaws(db, buyer, items, discount, order, db.carts[buyer := Cart(None, left)], home);
    }
  }

  /** A checkout that read at any earlier points keeps every law if and only if it read one store and its
      emptying of the cart leaves no row behind. */
  lemma CheckingOutIff(seen: Seen, db: Db, buyer: UserId, req: Request, deleted: set<ProductId>, home: ProductId -> StoreId)
    requires Laws(db, home) && Replica(seen.second, home) && CodesKept(seen.third, db)
    requires Writes(seen, db, CheckingOut(buyer, req, deleted)).Ok?
    ensures Laws(Writes(seen, db, CheckingOut(buyer, req, deleted)).value, home)
      <==> OneStore(seen, buyer) && Emptied(db, buyer, deleted)
  {
    hide CheckoutWrites, Fair, Laws, Replica, Left, Emptied, QuotedApart, LinesOk, OneStore;
    QuoteIsFair(seen, buyer, req, home);
    QuotedLinesIff(seen, buyer, req, home);
    var q := QuotedApart(seen, buyer, req).value;
    EmptyingAfterPlacing(db, buyer, q.0, q.1, q.2, deleted, home);
  }

  /** A cart cleared and refilled from another store between the two reads: an order of the one store with
      the other's products. */
  lemma CheckoutOfTwoStores(seen: Seen, db: Db, buyer: UserId, req: Request, deleted: set<ProductId>, home: ProductId -> StoreId)
    requires Replica(seen.second, home) && !OneStore(seen, buyer)
    requires Writes(seen, db, CheckingOut(buyer, req, deleted)).Ok?
    ensures
      var d := Writes(seen, db, CheckingOut(buyer, req, deleted)).value;
      && |d.orders| == |db.orders| + 1
      && var order := d.orders[|db.orders|];
      order.lines != [] && order.lines[0].product.Some? && home(order.lines[0].product.value) != order.store
  {
    QuotedParts(seen, buyer, req);
    LateOrder(seen, db, buyer, req, deleted);
    CartOfOk(seen.second, buyer, home);
    hide QuotedApart, Replica, Writes;
    var cart, items := CartOf(seen.second, buyer), QuotedApart(seen, buyer, req).value.0;
    JoinedKeeps(seen.second, cart.items);
    assert items[0] in cart.items && cart.store == Some(home(items[0].product));
  }

  lemma LateOrder(seen: Seen, db: Db, buyer: UserId, req: Request, deleted: set<ProductId>)
    requires Writes(seen, db, CheckingOut(buyer, req, deleted)).Ok?
    ensures QuotedApart(seen, buyer, req).Ok?
    ensures
      var d := Writes(seen, db, CheckingOut(buyer, req, deleted)).value;
      && d.orders == db.orders + [QuotedApart(seen, buyer, req).value.2]
      && CartOf(d, buyer) == Cart(None, Left(CartOf(db, buyer).items, deleted))
  {
    hide QuotedApart, Reserve, Sorted, Left;
  }

  lemma PlacedCarts(db: Db, buyer: UserId, items: seq<CartItem>, discount: Option<Discount>, order: Order)
    requires CheckoutWrites(db, buyer, items, discount, order).Ok?
    ensures CheckoutWrites(db, buyer, items, discount, order).value.carts == db.carts[buyer := Cart(None, [])]
  {
    hide Reserve, Sorted;
  }

  lemma EmptiedCartIff(db: Db, buyer: UserId, left: seq<CartItem>, home: ProductId -> StoreId)
    requires Laws(db, home)
    ensures Laws(db.(carts := db.carts[buyer := Cart(None, left)]), home) <==> left == []
  {
    CartWriteIff(db, buyer, Cart(None, left), home);
    StorelessIff(db.inventory, left, home);
    CartsFrameKeepsLaws(db, db.carts[buyer := Cart(None, left)], home);
    hide Money, Replica, Lifecycle, StockOk, VouchersOk, CartOk;
  }

  /** Units of every product are ordered as they were in the cart that was read; what is in it by the time
      it is emptied is gone, so exactly what was added or removed in between makes the difference. */
  lemma CheckingOutOrdersWhatWasRead(
    seen: Seen, db: Db, buyer: UserId, req: Request, deleted: set<ProductId>, p: ProductId, home: ProductId -> StoreId)
    requires Replica(seen.second, home) && Writes(seen, db, CheckingOut(buyer, req, deleted)).Ok? && Emptied(db, buyer, deleted)
    ensures
      var d := Writes(seen, db, CheckingOut(buyer, req, deleted)).value;
      && |d.orders| == |db.orders| + 1
      && Units(d.orders[|db.orders|].lines, p) == InCart(seen.second, buyer, p)
      && InCart(d, buyer, p) == 0
  {
    QuoteIsFair(seen, buyer, req, home);
    WholeCartJoins(seen.second, buyer, home);
    QuotedParts(seen, buyer, req);
    LateOrder(seen, db, buyer, req, deleted);
    hide QuotedApart, Replica, Writes;
    LeftIsEmptyIff(CartOf(db, buyer).items, deleted);
  }

  // ----- any write -----

  lemma ProcessingIff(db: Db, o: OrderId, home: ProductId -> StoreId)
    requires Laws(db, home) && o < |db.orders| && ProcessWrites(db, o).Ok?
    ensures Laws(ProcessWrites(db, o).value, home) <==> db.orders[o].status == SedangDikemas
  {
    hide Money, Replica, Lifecycle, StockOk, VouchersOk, ProcessWrites;
    ProcessWritesIff(db, o, home);
    if db.orders[o].status == SedangDikemas {
      ProcessingKeepsLaws(db, o, home);
    }
  }

  lemma StockSettingIff(db: Db, p: ProductId, units: nat, home: ProductId -> StoreId)
    requires Laws(db, home)
    ensures Laws(StockWrites(db, p, units), home) <==> Live(db, p)
  {
    hide Money, Replica, Lifecycle, StockOk, VouchersOk, StockWrites;
    StockWritesIff(db, p, units, home);
    if Live(db, p) {
      StockSettingKeepsLaws(db, p, units, home);
    }
  }

  lemma AddingIff(seen: Db, db: Db, buyer: UserId, cart: Cart, p: ProductId, quantity: int, home: ProductId -> StoreId)
    requires Laws(db, home) && Replica(seen, home) && p in seen.products && quantity > 0
    requires AddWrites(db, buyer, cart, p, seen.products[p].store, quantity).Ok?
    ensures
      Laws(AddWrites(db, buyer, cart, p, seen.products[p].store, quantity).value, home)
      <==> StillFits(db, buyer, cart, p, home)
  {
    AtHome(seen, p, home);
    hide Money, Replica, Lifecycle, StockOk, VouchersOk, StillFits;
    AddWritesIff(db, buyer, cart, p, quantity, home);
    var d := AddWrites(db, buyer, cart, p, home(p), quantity).value;
    CartsFrameKeepsLaws(db, d.carts, home);
  }

  lemma EmptyingIff(db: Db, buyer: UserId, deleted: set<ProductId>, home: ProductId -> StoreId)
    requires Laws(db, home)
    ensures Laws(ClearWrites(db, buyer, deleted), home) <==> Emptied(db, buyer, deleted)
  {
    hide Money, Replica, Lifecycle, StockOk, VouchersOk, Emptied;
    ClearWritesIff(db, buyer, deleted, home);
    CartsFrameKeepsLaws(db, ClearWrites(db, buyer, deleted).carts, home);
  }

  lemma WholeKeepsLaws(db: Db, op: Op, home: ProductId -> StoreId)
    requires Laws(db, home) && Allowed(op, home)
    ensures Laws(Step(db, op), home) && CodesKept(db, Step(db, op))
  {
    StepKeepsVouchers(db, op, home);
    hide Money, Replica, OrdersOk, CompletionsOk, StockOk, VouchersOk, Step, Issued;
    StepKeepsReplica(db, op, home);
    StepKeepsMoney(db, op);
    StepKeepsStock(db, op, home);
    StepKeepsOrders(db, op, home);
    StepKeepsCompletions(db, op);
  }

  lemma DeletingIff(db: Db, p: ProductId, version: nat, swept: set<UserId>, home: ProductId -> StoreId)
    requires Laws(db, home)
    ensures Laws(DeletionWrites(db, p, version, swept), home) <==> AllSwept(db, p, version, swept)
  {
    hide Money, Replica, Lifecycle, StockOk, VouchersOk, DeletionWrites, AllSwept, ReplicateDeletion;
    DeletionWritesIff(db, p, version, swept, home);
    if AllSwept(db, p, version, swept) {
      SweptIsWhole(db, p, version, swept);
      DeletionIsAStep(db, p, version);
      WholeKeepsLaws(db, DoConsume(ProductDeleted(p, version)), home);
    }
  }

  lemma DeletionIsAStep(db: Db, p: ProductId, version: nat)
    requires ReplicateDeletion(db, p, version).Ok?
    ensures Step(db, DoConsume(ProductDeleted(p, version))) == ReplicateDeletion(db, p, version).value
  {
    hide ReplicateDeletion, ReplicateProduct, ReplicateStore, Checkout, ReturnOrder, SetStock, AddItem, SetQuantity;
  }

  lemma RowWritesKeepLaws(db: Db, buyer: UserId, p: ProductId, quantity: nat, home: ProductId -> StoreId)
    requires Laws(db, home) && quantity >= 1
    ensures Laws(DropWrites(db, buyer, p), home) && Laws(QuantityWrites(db, buyer, p, quantity), home)
  {
    hide Money, Replica, Lifecycle, StockOk, VouchersOk;
    DropWritesKeepReplica(db, buyer, p, home);
    CartsFrameKeepsLaws(db, DropWrites(db, buyer, p).carts, home);
    QuantityWritesKeepReplica(db, buyer, p, quantity, home);
    CartsFrameKeepsLaws(db, QuantityWrites(db, buyer, p, quantity).carts, home);
  }

  /** A write that rests on an earlier read keeps every law if and only if what it read still holds. */
  lemma WritesKeepLawsIff(seen: Seen, db: Db, w: Write, home: ProductId -> StoreId)
    requires Laws(db, home) && Replica(seen.first, home) && Replica(seen.second, home) && CodesKept(seen.third, db)
    requires Writes(seen, db, w).Ok?
    ensures Laws(Writes(seen, db, w).value, home) <==> StillTrue(seen, db, w, home)
  {
    hide Laws, Replica, CodesKept, ProcessWrites, StockWrites, AddWrites, ClearWrites, CheckoutWrites;
    hide StillFits, Emptied, QuotedApart, OneStore, SeenCart, DeletionWrites, AllSwept, DropWrites, QuantityWrites;
    match w
    case Processing(_, o) => ProcessingIff(db, o, home);
    case StockSetting(_, p, units) => StockSettingIff(db, p, units, home);
    case Adding(buyer, p, quantity, _) => AddingIff(seen.first, db, buyer, SeenCart(seen, buyer), p, quantity, home);
    case Emptying(buyer, deleted) => EmptyingIff(db, buyer, deleted, home);
    case CheckingOut(buyer, req, deleted) => CheckingOutIff(seen, db, buyer, req, deleted, home);
    case Deleting(p, version, swept) => DeletingIff(db, p, version, swept, home);
    case Dropping(buyer, p) => RowWritesKeepLaws(db, buyer, p, 1, home);
    case Setting(buyer, p, quantity) => RowWritesKeepLaws(db, buyer, p, quantity, home);
  }

  lemma WritesKeepCodes(seen: Seen, db: Db, w: Write)
    requires Writes(seen, db, w).Ok?
    ensures CodesKept(db, Writes(seen, db, w).value)
  {
    hide QuotedApart, Reserve, Sorted, Left, StillFits, Put;
  }

  // ----- overlapping runs -----

  /** A whole transaction, or the writes of one whose reads saw the states after the first `first`, `second`
      and `third` events. */
  datatype Event = Whole(op: Op) | Late(first: nat, second: nat, third: nat, write: Write)

  function Upto(k: nat, n: nat): nat { if k <= n then k else n }

  function After(events: seq<Event>): Db {
    if events == [] then EMPTY
    else
      var n := |events| - 1;
      match events[n]
      case Whole(op) => Step(After(events[..n]), op)
      case Late(i, j, k, w) =>
        var seen := Seen(After(events[..Upto(i, n)]), After(events[..Upto(j, n)]), After(events[..Upto(k, n)]));
        var r := Writes(seen, After(events[..n]), w);
        if r.Ok? then r.value else After(events[..n])
  }

  /** The reads of event `n`, in the order they were made. */
  predicate InSequence(e: Event, n: nat) { e.Late? ==> e.first <= e.second <= e.third <= n }

  function SeenBy(events: seq<Event>, e: Event): Seen
    requires e.Late? && InSequence(e, |events|)
  {
    Seen(After(events[..e.first]), After(events[..e.second]), After(events[..e.third]))
  }

  /** Whole transactions get what they may, and writes only follow reads that passed their guards. */
  ghost predicate Possible(events: seq<Event>, home: ProductId -> StoreId) {
    forall n :: 0 <= n < |events| ==>
      && InSequence(events[n], n)
      && if events[n].Whole? then Allowed(events[n].op, home) else Begun(SeenBy(events[..n], events[n]), events[n].write)
  }

  /** Event `n` is a write that goes through although what it read is no longer true. */
  ghost predicate Stale(events: seq<Event>, n: nat, home: ProductId -> StoreId) {
    && n < |events| && events[n].Late? && InSequence(events[n], n)
    && var seen, db := SeenBy(events[..n], events[n]), After(events[..n]);
    && Writes(seen, db, events[n].write).Ok? && !StillTrue(seen, db, events[n].write, home)
  }

  lemma EmptyHasLaws(home: ProductId -> StoreId)
    ensures Laws(EMPTY, home)
  {
    ReplicaInvariant([], home);
    LifecycleInvariant([], home);
    MoneyConserved([]);
    StockInvariant([], home);
  }

  lemma CodesChain(a: Db, b: Db, c: Db)
    requires CodesKept(a, b) && CodesKept(b, c)
    ensures CodesKept(a, c)
  {
  }

  lemma CodesSame(db: Db)
    ensures CodesKept(db, db)
  {
  }

  lemma LawsHaveReplica(db: Db, home: ProductId -> StoreId)
    requires Laws(db, home)
    ensures Replica(db, home)
  {
  }

  lemma PrefixPossible(events: seq<Event>, k: nat, home: ProductId -> StoreId)
    requires Possible(events, home) && k <= |events|
    ensures Possible(events[..k], home)
    ensures forall n :: 0 <= n < k ==> (Stale(events[..k], n, home) <==> Stale(events, n, home))
  {
    hide After, Allowed, Begun, Writes, StillTrue, SeenBy;
    var part := events[..k];
    assert forall n :: 0 <= n <= k ==> part[..n] == events[..n];
  }

  lemma AfterWhole(init: seq<Event>, op: Op)
    ensures After(init + [Whole(op)]) == Step(After(init), op)
  {
    hide Step;
    assert (init + [Whole(op)])[..|init|] == init;
  }

  lemma AfterLate(init: seq<Event>, e: Event)
    requires e.Late? && InSequence(e, |init|)
    ensures
      var r := Writes(SeenBy(init, e), After(init), e.write);
      After(init + [e]) == if r.Ok? then r.value else After(init)
  {
    hide Writes;
    var all := init + [e];
    assert all[..|init|] == init && all[..e.first] == init[..e.first];
    assert all[..e.second] == init[..e.second] && all[..e.third] == init[..e.third];
  }

  /** One more event on a run that has the laws. */
  lemma EventKeepsLaws(init: seq<Event>, e: Event, home: ProductId -> StoreId)
    requires Laws(After(init), home) && InSequence(e, |init|)
    requires e.Whole? ==> Allowed(e.op, home)
    requires e.Late? ==>
      var seen := SeenBy(init, e);
      Replica(seen.first, home) && Replica(seen.second, home) && CodesKept(seen.third, After(init))
    ensures Laws(After(init + [e]), home) <==> !Stale(init + [e], |init|, home)
    ensures CodesKept(After(init), After(init + [e]))
  {
    assert (init + [e])[..|init|] == init && (init + [e])[|init|] == e;
    hide Laws, Replica, Allowed, Step, Writes, StillTrue, SeenBy, After, CodesKept;
    CodesSame(After(init));
    if e.Whole? {
      AfterWhole(init, e.op);
      WholeKeepsLaws(After(init), e.op, home);
    } else {
      AfterLate(init, e);
      var seen := SeenBy(init, e);
      if Writes(seen, After(init), e.write).Ok? {
        WritesKeepLawsIff(seen, After(init), e.write, home);
        WritesKeepCodes(seen, After(init), e.write);
      }
    }
  }

  lemma LastIsPossible(init: seq<Event>, e: Event, home: ProductId -> StoreId)
    requires Possible(init + [e], home)
    ensures InSequence(e, |init|) && (e.Whole? ==> Allowed(e.op, home))
  {
    assert (init + [e])[|init|] == e;
  }

  lemma {:induction false} NothingStaleKeepsLaws(events: seq<Event>, home: ProductId -> StoreId)
    requires Possible(events, home) && forall n :: 0 <= n < |events| ==> !Stale(events, n, home)
    ensures Laws(After(events), home)
    ensures forall k :: 0 <= k <= |events| ==> CodesKept(After(events[..k]), After(events))
    decreases |events|, 0
  {
    hide Laws, Replica, After, Possible, Stale, CodesKept, SeenBy, InSequence, Allowed;
    if events == [] {
      EmptyHasLaws(home);
      NoEvents();
      assert events[..0] == events;
      CodesSame(After(events));
    } else {
      var init, e := events[..|events| - 1], events[|events| - 1];
      assert events == init + [e];
      PrefixPossible(events, |init|, home);
      NothingStaleKeepsLaws(init, home);
      LastIsPossible(init, e, home);
      ReadsHaveLaws(init, e, home);
      EventKeepsLaws(init, e, home);
      forall k | 0 <= k <= |events| ensures CodesKept(After(events[..k]), After(events)) {
        if k <= |init| {
          assert init[..k] == events[..k];
          CodesChain(After(events[..k]), After(init), After(events));
        } else {
          assert events[..k] == events;
          CodesSame(After(events));
        }
      }
    }
  }

  /** What a late write read was right, too. */
  lemma ReadsHaveLaws(init: seq<Event>, e: Event, home: ProductId -> StoreId)
    requires Possible(init, home) && (forall n :: 0 <= n < |init| ==> !Stale(init, n, home)) && InSequence(e, |init|)
    requires forall k :: 0 <= k <= |init| ==> CodesKept(After(init[..k]), After(init))
    ensures e.Late? ==>
      var seen := SeenBy(init, e);
      Replica(seen.first, home) && Replica(seen.second, home) && CodesKept(seen.third, After(init))
    decreases |init|, 1
  {
    if e.Late? {
      hide Laws, Replica, After, Possible, Stale, CodesKept;
      PrefixPossible(init, e.first, home);
      NothingStaleKeepsLaws(init[..e.first], home);
      LawsHaveReplica(After(init[..e.first]), home);
      PrefixPossible(init, e.second, home);
      NothingStaleKeepsLaws(init[..e.second], home);
      LawsHaveReplica(After(init[..e.second]), home);
    }
  }

  lemma NoEvents()
    ensures After([]) == EMPTY
  {
  }

  lemma {:induction false} FirstStale(events: seq<Event>, n: nat, home: ProductId -> StoreId) returns (first: nat)
    requires Stale(events, n, home)
    ensures first <= n && Stale(events, first, home) && forall k :: 0 <= k < first ==> !Stale(events, k, home)
  {
    hide Stale;
    first := n;
    if k: nat :| k < n && Stale(events, k, home) {
      first := FirstStale(events, k, home);
    }
  }

  /** Over every overlapping run: replicas, carts, orders, jobs, money, stock and vouchers are right at
      every moment if and only if no write goes through on a read that is no longer true. */
  lemma OverlapsKeepLawsIff(events: seq<Event>, home: ProductId -> StoreId)
    requires Possible(events, home)
    ensures (forall k :: 0 <= k <= |events| ==> Laws(After(events[..k]), home))
      <==> (forall n :: 0 <= n < |events| ==> !Stale(events, n, home))
  {
    hide Laws, Replica, After, Possible, Stale, CodesKept;
    if n: nat :| n < |events| && Stale(events, n, home) {
      var first := FirstStale(events, n, home);
      StaleIsInside(events, first, home);
      StaleBreaks(events, first, home);
    } else {
      forall k | 0 <= k <= |events| ensures Laws(After(events[..k]), home) {
        PrefixPossible(events, k, home);
        NothingStaleKeepsLaws(events[..k], home);
      }
    }
  }

  lemma StaleIsInside(events: seq<Event>, n: nat, home: ProductId -> StoreId)
    requires Stale(events, n, home)
    ensures n < |events|
  {
  }

  lemma StaleBreaks(events: seq<Event>, n: nat, home: ProductId -> StoreId)
    requires Possible(events, home) && n < |events| && Stale(events, n, home)
    requires forall k :: 0 <= k < n ==> !Stale(events, k, home)
    ensures !Laws(After(events[..n + 1]), home)
  {
    hide Laws, Replica, After, Possible, Stale, CodesKept, SeenBy, InSequence, Allowed;
    var init, e := events[..n], events[n];
    assert events[..n + 1] == init + [e];
    PrefixPossible(events, n, home);
    NothingStaleKeepsLaws(init, home);
    PrefixPossible(events, n + 1, home);
    LastIsPossible(init, e, home);
    ReadsHaveLaws(init, e, home);
    EventKeepsLaws(init, e, home);
  }
}

/** The commerce service as it runs: tables updated in place, statement by statement, each method one
    transaction that is undone when a guard fails half way. */
module CommerceService {
  import opened Prelude
  import opened Contracts
  import opened Pricing
  import opened Commerce
  import CommerceCheckout
  import CommerceMoney
  import CommerceOrders
  import CommerceReplica
  import CommerceStock
  import Overdue

  /** The method committed exactly what the transaction function says, or left everything as it was. */
  ghost predicate Committed<T>(was: Db, after: Db, spec: Result<Db, Error>, r: Result<T, Error>) {
    match spec
    case Ok(d) => r.Ok? && after == d
    case Err(e) => r == Err(e) && after == was
  }

  class Database {
    var wallets: map<UserId, int>
    var ledger: seq<Entry>
    var stores: map<StoreId, StoreRef>
    var products: map<ProductId, ProductRef>
    var inventory: map<ProductId, Stock>
    var pending: map<ProductId, PendingStock>
    var carts: map<UserId, Cart>
    var orders: seq<Order>
    var jobs: map<OrderId, Job>
    var vouchers: seq<Voucher>
    var promos: seq<Promo>
    var outbox: seq<CommerceEvent>

    function State(): Db
      reads this
    {
      Db(wallets, ledger, stores, products, inventory, pending, carts, orders, jobs, vouchers, promos, outbox)
    }

    constructor ()
      ensures State() == EMPTY
    {
      wallets, ledger, stores, products, inventory, pending := map[], [], map[], map[], map[], map[];
      carts, orders, jobs, vouchers, promos, outbox := map[], [], map[], [], [], [];
    }

    // ----- wallets -----

    method GetOrCreateWallet(user: UserId)
      modifies this`wallets
      ensures State() == OpenWallet(old(State()), user)
      ensures user in wallets && wallets[user] == Balance(old(State()), user)
    {
      if user !in wallets {
        wallets := wallets[user := 0];
      } else {
        assert wallets == wallets[user := wallets[user]];
      }
    }

    method DirectTopUp(user: UserId, amount: nat)
      modifies this`wallets, this`ledger
      ensures State() == TopUp(old(State()), user, amount)
    {
      GetOrCreateWallet(user);
      ledger := ledger + [Entry(user, amount, TopUpEntry)];
      wallets := wallets[user := wallets[user] + amount];
    }

    // ----- carts -----

    method GetOrCreateCart(buyer: UserId)
      modifies this`carts
      ensures State() == OpenCart(old(State()), buyer)
    {
      if buyer !in carts {
        carts := carts[buyer := Cart(None, [])];
      } else if carts[buyer].store.Some? && carts[buyer].items == [] {
        carts := carts[buyer := carts[buyer].(store := None)];
      } else {
        assert carts == carts[buyer := carts[buyer]];
      }
    }

    method AddItemToCart(buyer: UserId, p: ProductId, quantity: int, synced: bool) returns (r: Result<(), Error>)
      modifies this`carts
      ensures Committed(old(State()), State(), AddItem(old(State()), buyer, p, quantity, synced), r)
    {
      if quantity <= 0 {
        return Err(Invalid);
      }
      if !synced {
        return Err(Conflict);
      }
      var saved := carts;
      if p !in products || p !in inventory {
        return Err(NotFound);
      }
      if inventory[p].units < quantity {
        return Err(Invalid);
      }
      if buyer !in carts {
        carts := carts[buyer := Cart(None, [])];
      }
      var store := products[p].store;
      if carts[buyer].store.Some? && carts[buyer].store.value != store {
        carts := saved;
        return Err(Conflict);
      }
      if carts[buyer].store.None? {
        carts := carts[buyer := carts[buyer].(store := Some(store))];
      }
      var items := carts[buyer].items;
      var at := FindItem(items, p);
      if at.Some? {
        var sum := items[at.value].quantity + quantity;
        if inventory[p].units < sum {
          carts := saved;
          return Err(Invalid);
        }
        carts := carts[buyer := carts[buyer].(items := items[at.value := CartItem(p, sum)])];
      } else {
        carts := carts[buyer := carts[buyer].(items := items + [CartItem(p, quantity)])];
      }
      return Ok(());
    }

    method UpdateCartItemQuantity(buyer: UserId, p: ProductId, quantity: int) returns (r: Result<(), Error>)
      modifies this`carts
      ensures Committed(old(State()), State(), SetQuantity(old(State()), buyer, p, quantity), r)
    {
      if quantity <= 0 {
        return Err(Invalid);
      }
      if buyer !in carts {
        return Err(NotFound);
      }
      var at := FindItem(carts[buyer].items, p);
      if at.None? || p !in products || p !in inventory {
        return Err(NotFound);
      }
      if inventory[p].units < quantity {
        return Err(Invalid);
      }
      carts := carts[buyer := carts[buyer].(items := carts[buyer].items[at.value := CartItem(p, quantity)])];
      return Ok(());
    }

    method RemoveCartItem(buyer: UserId, p: ProductId) returns (r: Result<(), Error>)
      modifies this`carts
      ensures Committed(old(State()), State(), RemoveItem(old(State()), buyer, p), r)
    {
      if buyer !in carts || FindItem(carts[buyer].items, p).None? {
        return Err(NotFound);
      }
      carts := carts[buyer := carts[buyer].(items := DropItem(carts[buyer].items, p))];
      if carts[buyer].items == [] {
        carts := carts[buyer := carts[buyer].(store := None)];
      }
      return Ok(());
    }

    method ClearCartOf(buyer: UserId)
      modifies this`carts
      ensures State() == ClearCart(old(State()), buyer)
    {
      if buyer in carts {
        carts := carts[buyer := carts[buyer].(items := [])];
        carts := carts[buyer := carts[buyer].(store := None)];
      }
    }

    // ----- checkout -----

    /** The accumulation of the cart summary and of the checkout. */
    method SubtotalOf(lines: seq<Line>) returns (subtotal: nat)
      ensures subtotal == Subtotal(lines)
      ensures subtotal == Sum(lines, (l: Line) => l.price * l.quantity)
    {
      subtotal := 0;
      for i := 0 to |lines|
        invariant subtotal == Subtotal(lines[..i])
        invariant subtotal == Sum(lines[..i], (l: Line) => l.price * l.quantity)
      {
        subtotal := subtotal + lines[i].price * lines[i].quantity;
        assert lines[..i + 1][..i] == lines[..i];
      }
      assert lines[..|lines|] == lines;
    }

    method PreviewCheckout(buyer: UserId, req: Request) returns (r: Result<CommerceCheckout.Summary, Error>)
      modifies this`carts
      ensures State() == OpenCart(old(State()), buyer)
      ensures r == CommerceCheckout.Preview(old(State()), buyer, req)
    {
      GetOrCreateCart(buyer);
      var lines := Priced(State(), Joined(State(), carts[buyer].items));
      var subtotal := SubtotalOf(lines);
      if |lines| == 0 {
        return Ok(CommerceCheckout.Summary([], 0, 0, None, None, Totals(0, 0, 0, 0)));
      }
      var discount := Discounted(State(), req.code, subtotal, req.now, req.pick);
      if discount.Err? {
        return Err(discount.error);
      }
      var d := discount.value;
      var totals := CalculateTotals(subtotal, req.delivery, req.fees, AmountOff(d));
      return Ok(CommerceCheckout.Summary(
        lines, subtotal, AmountOff(d),
        if d.Some? then Some(d.value.code) else None,
        if d.None? then None else if d.value.kind.FromVoucher? then Some(VoucherCode) else Some(PromoCode),
        totals));
    }

    /** The guarded decrements, in product order; `changes` are the rows as they were written. */
    method TakeStock(items: seq<CartItem>) returns (ok: bool, changes: seq<CommerceEvent>)
      modifies this`inventory
      ensures var r := Reserve(Shelf(old(inventory), outbox), items);
        && (ok <==> r.Some?)
        && (ok ==> Shelf(inventory, outbox + changes) == r.value)
    {
      ghost var was := Shelf(inventory, outbox);
      ok, changes := true, [];
      assert outbox + [] == outbox;
      for i := 0 to |items|
        invariant Reserve(was, items[..i]) == Some(Shelf(inventory, outbox + changes))
      {
        var item := items[i];
        assert items[..i + 1][..i] == items[..i];
        if item.product !in inventory || inventory[item.product].units < item.quantity {
          NoneStays(was, items, i + 1);
          return false, [];
        }
        var row := Stock(inventory[item.product].units - item.quantity, inventory[item.product].version + 1);
        inventory := inventory[item.product := row];
        ghost var before := changes;
        changes := changes + [InventoryChanged(item.product, row.units, row.version)];
        assert outbox + changes == outbox + before + [InventoryChanged(item.product, row.units, row.version)];
      }
      assert items[..|items|] == items;
    }

    method DecrementVoucherUsage(row: nat) returns (ok: bool)
      requires row < |vouchers|
      modifies this`vouchers
      ensures ok <==> old(vouchers)[row].remaining > 0
      ensures vouchers == if ok then old(vouchers)[row := old(vouchers)[row].(remaining := old(vouchers)[row].remaining - 1)]
                          else old(vouchers)
    {
      if vouchers[row].remaining <= 0 {
        return false;
      }
      vouchers := vouchers[row := vouchers[row].(remaining := vouchers[row].remaining - 1)];
      return true;
    }

    /** Inserts the order, then its lines one by one. */
    method InsertOrder(order: Order)
      requires order.history == [order.status]
      modifies this`orders
      ensures orders == old(orders) + [order]
    {
      var o := |orders|;
      orders := orders + [order.(lines := [], history := [])];
      for i := 0 to |order.lines|
        invariant orders == old(orders) + [order.(lines := order.lines[..i], history := [])]
      {
        orders := orders[o := orders[o].(lines := orders[o].lines + [order.lines[i]])];
        assert order.lines[..i + 1] == order.lines[..i] + [order.lines[i]];
      }
      orders := orders[o := orders[o].(history := orders[o].history + [order.status])];
      assert orders[o] == order;
    }

    /** Pays and takes the stock, or undoes what it did. */
    method Charge(buyer: UserId, items: seq<CartItem>, total: int) returns (ok: bool)
      modifies this`wallets, this`inventory, this`outbox
      ensures
        var was := old(State());
        var shelf := Reserve(ShelfOf(was), Sorted(items));
        && (ok <==> Balance(was, buyer) >= total && shelf.Some?)
        && (ok ==>
              && wallets == was.wallets[buyer := Balance(was, buyer) - total]
              && Shelf(inventory, outbox) == shelf.value)
        && (!ok ==> wallets == was.wallets && inventory == was.inventory && outbox == was.outbox)
    {
      hide Reserve, Sorted;
      var savedWallets, savedInventory := wallets, inventory;
      GetOrCreateWallet(buyer);
      if wallets[buyer] < total {
        wallets := savedWallets;
        return false;
      }
      var taken, changes := TakeStock(Sorted(items));
      if !taken {
        wallets, inventory := savedWallets, savedInventory;
        return false;
      }
      outbox := outbox + changes;
      wallets := wallets[buyer := wallets[buyer] - total];
      return true;
    }

    /** Everything a paid order leaves behind besides the wallet and the stock. */
    method RecordOrder(buyer: UserId, order: Order, discount: Option<Discount>)
      requires order.history == [order.status] && buyer in carts
      requires discount.Some? && discount.value.kind.FromVoucher? ==>
        discount.value.kind.row < |vouchers| && vouchers[discount.value.kind.row].remaining > 0
      modifies this`ledger, this`vouchers, this`orders, this`carts
      ensures ledger == old(ledger) + [Entry(buyer, 0 - order.total, PaymentEntry)]
      ensures vouchers == UseVoucher(old(vouchers), discount)
      ensures orders == old(orders) + [order]
      ensures carts == old(carts)[buyer := Cart(None, [])]
    {
      if discount.Some? && discount.value.kind.FromVoucher? {
        var ok := DecrementVoucherUsage(discount.value.kind.row);
        assert ok;
      }
      ledger := ledger + [Entry(buyer, 0 - order.total, PaymentEntry)];
      InsertOrder(order);
      ClearCartOf(buyer);
    }

    /** The discount and the totals of what is in the cart, before anything is written. */
    method Quote(buyer: UserId, req: Request) returns (r: Result<(seq<CartItem>, Option<Discount>, Order), Error>)
      ensures var q := Quoted(State(), buyer, req);
        && (q.Err? ==> r == Err(q.error))
        && (q.Ok? ==> r.Ok? && r.value == q.value)
    {
      hide CalculateTotals, Discounted, Joined, Priced, Subtotal, NewOrder;
      if !req.addressFound {
        return Err(NotFound);
      }
      if buyer !in carts || carts[buyer].store.None? {
        return Err(Invalid);
      }
      var items := Joined(State(), carts[buyer].items);
      if |items| == 0 {
        return Err(Invalid);
      }
      var lines := Priced(State(), items);
      var subtotal := SubtotalOf(lines);
      var discount := Discounted(State(), req.code, subtotal, req.now, req.pick);
      if discount.Err? {
        return Err(discount.error);
      }
      var totals := CalculateTotals(subtotal, req.delivery, req.fees, AmountOff(discount.value));
      return Ok((items, discount.value, NewOrder(buyer, carts[buyer].store.value, req, lines, discount.value, totals)));
    }

    method CreateOrder(buyer: UserId, req: Request) returns (r: Result<OrderId, Error>)
      modifies this`wallets, this`ledger, this`inventory, this`outbox, this`vouchers, this`orders, this`carts
      ensures Committed(old(State()), State(), Checkout(old(State()), buyer, req), r)
      ensures r.Ok? ==> r.value == |old(orders)|
    {
      hide Checkout, Quoted, Reserve, Sorted, UseVoucher, Placed;
      ghost var was := State();
      CheckoutIsQuoteAndCharge(was, buyer, req);
      var quote := Quote(buyer, req);
      if quote.Err? {
        return Err(quote.error);
      }
      var (items, discount, order) := quote.value;
      var paid := Charge(buyer, items, order.total);
      if !paid {
        return Err(Invalid);
      }
      RecordOrder(buyer, order, discount);
      PlacedFieldwise(was, State(), buyer, Shelf(inventory, outbox), discount, order);
      return Ok(|orders| - 1);
    }

    // ----- the life of an order -----

    method SetStatus(o: OrderId, status: Status)
      requires o < |orders|
      modifies this`orders
      ensures orders == old(orders)[o := Advance(old(orders)[o], status)]
    {
      orders := orders[o := orders[o].(status := status)];
      orders := orders[o := orders[o].(history := orders[o].history + [status])];
    }

    method ProcessOrderOf(seller: UserId, o: OrderId) returns (r: Result<(), Error>)
      modifies this`orders, this`jobs
      ensures Committed(old(State()), State(), ProcessOrder(old(State()), seller, o), r)
    {
      if o >= |orders| || orders[o].store !in stores || stores[orders[o].store].seller != seller {
        return Err(NotFound);
      }
      if orders[o].status != SedangDikemas {
        return Err(Conflict);
      }
      var saved := orders;
      SetStatus(o, MenungguPengirim);
      if o in jobs {
        orders := saved;
        return Err(Conflict);
      }
      jobs := jobs[o := Job(None, Pending, orders[o].fee)];
      return Ok(());
    }

    method TakeDeliveryJob(o: OrderId, driver: UserId) returns (r: Result<(), Error>)
      modifies this`orders, this`jobs
      ensures Committed(old(State()), State(), TakeJob(old(State()), o, driver), r)
    {
      if o !in jobs || jobs[o].status != Pending {
        return Err(Conflict);
      }
      var saved := jobs;
      jobs := jobs[o := jobs[o].(status := Taken, driver := Some(driver))];
      if o >= |orders| || orders[o].status != MenungguPengirim {
        jobs := saved;
        return Err(Conflict);
      }
      SetStatus(o, SedangDikirim);
      return Ok(());
    }

    method CompleteDeliveryJob(o: OrderId, driver: UserId) returns (r: Result<(), Error>)
      modifies this`orders, this`jobs, this`outbox
      ensures Committed(old(State()), State(), CompleteJob(old(State()), o, driver), r)
    {
      if o !in jobs || jobs[o].driver != Some(driver) || jobs[o].status != Taken {
        return Err(Conflict);
      }
      var saved := jobs;
      jobs := jobs[o := jobs[o].(status := Completed)];
      if o >= |orders| || orders[o].status != SedangDikirim {
        jobs := saved;
        return Err(Conflict);
      }
      outbox := outbox + [CompletionOf(o, orders[o])];
      SetStatus(o, PesananSelesai);
      return Ok(());
    }

    /** Puts the units of an order back; products no longer stocked are passed over. */
    method RestoreStock(lines: seq<Line>) returns (itemsRestored: nat)
      modifies this`inventory, this`outbox
      ensures Shelf(inventory, outbox) == Restock(Shelf(old(inventory), old(outbox)), lines)
      ensures itemsRestored == Overdue.ItemsRestored(lines)
    {
      itemsRestored := 0;
      var restored: seq<CommerceEvent> := [];
      ghost var was := Shelf(inventory, outbox);
      assert outbox + [] == outbox;
      for i := 0 to |lines|
        invariant Shelf(inventory, outbox + restored) == Restock(was, lines[..i])
        invariant itemsRestored == Overdue.ItemsRestored(lines[..i])
      {
        assert lines[..i + 1][..i] == lines[..i];
        var line := lines[i];
        if line.product.Some? {
          var p := line.product.value;
          if p in inventory {
            var row := Stock(inventory[p].units + line.quantity, inventory[p].version + 1);
            inventory := inventory[p := row];
            ghost var before := restored;
            restored := restored + [InventoryChanged(p, row.units, row.version)];
            assert outbox + restored == outbox + before + [InventoryChanged(p, row.units, row.version)];
          }
          itemsRestored := itemsRestored + line.quantity;
        }
      }
      assert lines[..|lines|] == lines;
      outbox := outbox + restored;
    }

    /** One order of an overdue pass. */
    method ReturnOverdue(o: OrderId) returns (r: Result<Overdue.Report, Error>)
      modifies this`orders, this`wallets, this`ledger, this`inventory, this`outbox
      ensures Committed(old(State()), State(), ReturnOrder(old(State()), o), r)
      ensures r.Ok? ==> o < |old(orders)| && r.value == Overdue.ReportOf(old(State()), o)
    {
      if o >= |orders| || orders[o].status == PesananSelesai || orders[o].status == Dikembalikan {
        return Err(Skipped);
      }
      var order := orders[o];
      SetStatus(o, Dikembalikan);
      Refund(order.buyer, order.total, o);
      var itemsRestored := RestoreStock(order.lines);
      return Ok(Overdue.Report(o, order.buyer, order.total, itemsRestored));
    }

    method Refund(buyer: UserId, amount: nat, o: OrderId)
      modifies this`wallets, this`ledger
      ensures wallets == old(wallets)[buyer := Balance(old(State()), buyer) + amount]
      ensures ledger == old(ledger) + [Entry(buyer, amount, RefundEntry(o))]
    {
      GetOrCreateWallet(buyer);
      wallets := wallets[buyer := wallets[buyer] + amount];
      ledger := ledger + [Entry(buyer, amount, RefundEntry(o))];
    }

    /** One iteration of a pass; an order in `failing` breaks before it commits and is rolled back. */
    method TryReturn(o: OrderId, failing: set<OrderId>) returns (report: Option<Overdue.Report>)
      modifies this`orders, this`wallets, this`ledger, this`inventory, this`outbox
      ensures
        var was := old(State());
        var r := ReturnOrder(was, o);
        if o in failing || r.Err? then State() == was && report.None?
        else o < |was.orders| && State() == r.value && report == Some(Overdue.ReportOf(was, o))
    {
      hide ReturnOrder;
      var savedOrders, savedWallets, savedLedger := orders, wallets, ledger;
      var savedInventory, savedOutbox := inventory, outbox;
      var r := ReturnOverdue(o);
      if o in failing {
        orders, wallets, ledger := savedOrders, savedWallets, savedLedger;
        inventory, outbox := savedInventory, savedOutbox;
        return None;
      }
      return if r.Ok? then Some(r.value) else None;
    }

    /** One pass: the list is read once, then each order is its own transaction; the pass logs one that
        fails and goes on. */
    method ProcessOverdueOrders(now: int, failing: set<OrderId>) returns (reports: seq<Overdue.Report>)
      modifies this`orders, this`wallets, this`ledger, this`inventory, this`outbox
      ensures Overdue.Pass(State(), reports) == Overdue.Process(old(State()), Overdue.OverdueList(old(orders), now), failing)
    {
      hide ReturnOrder;
      ghost var was := State();
      var list := Overdue.OverdueList(orders, now);
      reports := [];
      for i := 0 to |list|
        invariant Overdue.Pass(State(), reports) == Overdue.Process(was, list[..i], failing)
      {
        assert list[..i + 1][..i] == list[..i];
        var report := TryReturn(list[i], failing);
        if report.Some? {
          reports := reports + [report.value];
        }
      }
      assert list[..|list|] == list;
    }

    // ----- stock and replicas -----

    method PutStock(p: ProductId, units: int)
      modifies this`inventory, this`outbox
      ensures Shelf(inventory, outbox) == Put(Shelf(old(inventory), old(outbox)), p, units)
    {
      var version := if p in inventory then inventory[p].version + 1 else 1;
      inventory := inventory[p := Stock(units, version)];
      outbox := outbox + [InventoryChanged(p, units, version)];
    }

    method SetStockOf(seller: UserId, p: ProductId, units: nat) returns (r: Result<(), Error>)
      modifies this`pending, this`inventory, this`outbox
      ensures Committed(old(State()), State(), SetStock(old(State()), seller, p, units), r)
      ensures p in products && products[p].store in stores ==>
        var owner := stores[products[p].store].seller;
        && (r.Ok? <==> !products[p].deleted && owner == seller)
        && (r.Err? ==> r.error == if products[p].deleted then NotFound else Forbidden)
        && pending == old(pending)
      ensures r.Err? ==> inventory == old(inventory) && pending == old(pending) && outbox == old(outbox)
    {
      if p !in products || products[p].store !in stores {
        pending := pending[p := PendingStock(seller, units)];
        return Ok(());
      }
      if products[p].deleted {
        return Err(NotFound);
      }
      if stores[products[p].store].seller != seller {
        return Err(Forbidden);
      }
      PutStock(p, units);
      return Ok(());
    }

    method ApplyPendingStock(p: ProductId, store: StoreId)
      modifies this`pending, this`inventory, this`outbox
      ensures pending == old(pending) - {p}
      ensures Shelf(inventory, outbox)
        == if p in old(pending) && store in stores && stores[store].seller == old(pending)[p].seller && p in old(inventory)
           then Put(Shelf(old(inventory), old(outbox)), p, old(pending)[p].units)
           else Shelf(old(inventory), old(outbox))
    {
      if p !in pending {
        assert pending - {p} == pending;
        return;
      }
      var held := pending[p];
      pending := pending - {p};
      if store !in stores || stores[store].seller != held.seller {
        return;
      }
      if p in inventory {
        PutStock(p, held.units);
      }
    }

    method ProductUpserted(p: ProductId, store: StoreId, f: ProductFields, version: nat) returns (r: Result<(), Error>)
      modifies this`products, this`pending, this`inventory, this`outbox
      ensures Committed(old(State()), State(), ReplicateProduct(old(State()), p, store, f, version), r)
      ensures (p !in old(products) || old(products)[p].version < version) && r.Ok? ==>
        var deleted := p in old(products) && old(products)[p].deleted;
        && store in stores
        && products == old(products)[p := ProductRef(store, f.name, f.slug, f.price, f.imageKey, deleted, version)]
    {
      if p in products && products[p].version >= version {
        return Ok(());
      }
      if store !in stores {
        return Err(Retry);
      }
      products := products[p := RefOf(store, f, p in products && products[p].deleted, version)];
      if products[p].deleted {
        return Ok(());
      }
      if p !in inventory {
        inventory := inventory[p := Stock(0, 0)];
      }
      ApplyPendingStock(p, store);
      return Ok(());
    }

    method ProductDeleted(p: ProductId, version: nat) returns (r: Result<(), Error>)
      modifies this`products, this`carts, this`inventory, this`pending
      ensures Committed(old(State()), State(), ReplicateDeletion(old(State()), p, version), r)
    {
      if p !in products || products[p].version >= version {
        return Ok(());
      }
      products := products[p := products[p].(deleted := true, version := version)];
      carts := map u | u in carts :: carts[u].(items := DropItem(carts[u].items, p));
      inventory := inventory - {p};
      pending := pending - {p};
      return Ok(());
    }

    method StoreUpserted(s: StoreId, ref: StoreRef) returns (r: Result<(), Error>)
      modifies this`stores
      ensures Committed(old(State()), State(), ReplicateStore(old(State()), s, ref), r)
    {
      if s in stores && stores[s].version >= ref.version {
        return Ok(());
      }
      if SellerTaken(stores, s, ref.seller) {
        return Err(Retry);
      }
      stores := stores[s := ref];
      return Ok(());
    }

    // ----- codes -----

    method AddVoucher(v: Voucher) returns (r: Result<(), Error>)
      modifies this`vouchers
      ensures Committed(old(State()), State(), CreateVoucher(old(State()), v), r)
    {
      if exists i :: 0 <= i < |vouchers| && vouchers[i].code == v.code {
        return Err(Conflict);
      }
      vouchers := vouchers + [v];
      return Ok(());
    }

    method AddPromo(p: Promo) returns (r: Result<(), Error>)
      modifies this`promos
      ensures Committed(old(State()), State(), CreatePromo(old(State()), p), r)
    {
      if exists i :: 0 <= i < |promos| && promos[i].code == p.code {
        return Err(Conflict);
      }
      promos := promos + [p];
      return Ok(());
    }

    // ----- any sequence of requests, jobs and deliveries -----

    method Serve(op: Op)
      modifies this
      ensures State() == Step(old(State()), op)
    {
      hide Step;
      if WalletOp(op) || CartOp(op) || op.DoCheckout? {
        ServeBuyer(op);
      } else {
        ServeOthers(op);
      }
    }

    method ServeBuyer(op: Op)
      requires WalletOp(op) || CartOp(op) || op.DoCheckout?
      modifies this`wallets, this`ledger, this`inventory, this`outbox, this`vouchers, this`orders, this`carts
      ensures State() == Step(old(State()), op)
    {
      hide Checkout, AddItem, SetQuantity, RemoveItem, OpenCart, ClearCart, ReturnOrder, ProcessOrder, SetStock, Consume;
      match op
      case DoOpenWallet(user) => GetOrCreateWallet(user);
      case DoTopUp(user, amount) => DirectTopUp(user, amount);
      case DoOpenCart(buyer) => GetOrCreateCart(buyer);
      case DoAddItem(buyer, p, q, synced) => var _ := AddItemToCart(buyer, p, q, synced);
      case DoSetQuantity(buyer, p, q) => var _ := UpdateCartItemQuantity(buyer, p, q);
      case DoRemoveItem(buyer, p) => var _ := RemoveCartItem(buyer, p);
      case DoClearCart(buyer) => ClearCartOf(buyer);
      case DoCheckout(buyer, req) => var _ := CreateOrder(buyer, req);
    }

    method ServeOthers(op: Op)
      requires !WalletOp(op) && !CartOp(op) && !op.DoCheckout?
      modifies this
      ensures State() == Step(old(State()), op)
    {
      hide ReturnOrder, ProcessOrder, TakeJob, CompleteJob, SetStock, Checkout, Consume, CreateVoucher, CreatePromo;
      match op
      case DoProcessOrder(seller, o) => var _ := ProcessOrderOf(seller, o);
      case DoTakeJob(o, driver) => var _ := TakeDeliveryJob(o, driver);
      case DoCompleteJob(o, driver) => var _ := CompleteDeliveryJob(o, driver);
      case DoReturnOrder(o) => var _ := ReturnOverdue(o);
      case DoSetStock(seller, p, units) => var _ := SetStockOf(seller, p, units);
      case DoConsume(e) => HandleEvent(e);
      case DoCreateVoucher(v) => var _ := AddVoucher(v);
      case DoCreatePromo(p) => var _ := AddPromo(p);
    }

    /** An event handler that throws leaves the message to be redelivered. */
    method HandleEvent(e: CatalogEvent)
      modifies this
      ensures State() == Step(old(State()), DoConsume(e))
    {
      hide ReplicateStore, ReplicateProduct, ReplicateDeletion;
      match e
      case StoreUpserted(s, seller, name, slug, version) =>
        var _ := StoreUpserted(s, StoreRef(seller, name, slug, version));
      case ProductUpserted(p, store, f, version) => var _ := ProductUpserted(p, store, f, version);
      case ProductDeleted(p, version) => var _ := ProductDeleted(p, version);
    }

    /** Whatever it is asked, in whatever order, a service that started empty keeps money, stock,
        orders and replicas consistent. */
    method ServeAll(ops: seq<Op>, ghost home: ProductId -> StoreId)
      requires State() == EMPTY && AllAllowed(ops, home)
      modifies this
      ensures State() == Run(EMPTY, ops)
      ensures CommerceMoney.Money(State()) && CommerceStock.StockOk(State())
      ensures CommerceOrders.Lifecycle(State(), home) && CommerceReplica.Replica(State(), home)
    {
      hide Step, CommerceMoney.Money, CommerceStock.StockOk, CommerceOrders.Lifecycle, CommerceReplica.Replica;
      for i := 0 to |ops|
        invariant State() == Run(EMPTY, ops[..i])
      {
        assert ops[..i + 1][..i] == ops[..i];
        Serve(ops[i]);
      }
      assert ops[..|ops|] == ops;
      hide Run;
      CommerceMoney.MoneyConserved(ops);
      CommerceStock.StockInvariant(ops, home);
      CommerceOrders.LifecycleInvariant(ops, home);
      CommerceReplica.ReplicaInvariant(ops, home);
    }
  }

  /** The reading half of a checkout. */
  function Quoted(db: Db, buyer: UserId, req: Request): Result<(seq<CartItem>, Option<Discount>, Order), Error> {
    var cart := CartOf(db, buyer);
    if !req.addressFound then Err(NotFound)
    else if cart.store.None? then Err(Invalid)
    else
      var items := Joined(db, cart.items);
      var lines := Priced(db, items);
      if items == [] then Err(Invalid)
      else
        var discount := Discounted(db, req.code, Subtotal(lines), req.now, req.pick);
        if discount.Err? then Err(discount.error)
        else
          var totals := CalculateTotals(Subtotal(lines), req.delivery, req.fees, AmountOff(discount.value));
          Ok((items, discount.value, NewOrder(buyer, cart.store.value, req, lines, discount.value, totals)))
  }

  lemma PlacedFieldwise(db: Db, d: Db, buyer: UserId, shelf: Shelf, discount: Option<Discount>, order: Order)
    requires d.wallets == db.wallets[buyer := Balance(db, buyer) - order.total]
    requires d.ledger == db.ledger + [Entry(buyer, 0 - order.total, PaymentEntry)]
    requires d.stores == db.stores && d.products == db.products && d.pending == db.pending
    requires d.inventory == shelf.inventory && d.outbox == shelf.outbox
    requires d.carts == db.carts[buyer := Cart(None, [])] && d.orders == db.orders + [order]
    requires d.jobs == db.jobs && d.vouchers == UseVoucher(db.vouchers, discount) && d.promos == db.promos
    ensures d == Placed(db, buyer, shelf, discount, order)
  {
  }

  /** A checkout is its quote, then one charge that succeeds iff balance and stock suffice. */
  lemma CheckoutIsQuoteAndCharge(db: Db, buyer: UserId, req: Request)
    ensures
      var q := Quoted(db, buyer, req);
      if q.Err? then Checkout(db, buyer, req) == Err(q.error)
      else
        var (items, discount, order) := q.value;
        var shelf := Reserve(ShelfOf(db), Sorted(items));
        && buyer in db.carts && order.history == [order.status]
        && (discount.Some? && discount.value.kind.FromVoucher? ==>
              discount.value.kind.row < |db.vouchers| && db.vouchers[discount.value.kind.row].remaining > 0)
        && Checkout(db, buyer, req) ==
             if Balance(db, buyer) >= order.total && shelf.Some? then Ok(Placed(db, buyer, shelf.value, discount, order))
             else Err(Invalid)
  {
    hide Reserve, Sorted, Joined, Priced, Subtotal, CalculateTotals, Placed, Discounted;
    if Quoted(db, buyer, req).Ok? {
      var (items, discount, _) := Quoted(db, buyer, req).value;
      if discount.Some? && discount.value.kind.FromVoucher? {
        VoucherUsable(db, req.code, Subtotal(Priced(db, items)), req.now, req.pick);
      }
    }
  }

  lemma VoucherUsable(db: Db, code: Option<string>, subtotal: nat, now: int, pick: nat)
    requires Discounted(db, code, subtotal, now, pick).Ok? && Discounted(db, code, subtotal, now, pick).value.Some?
    requires Discounted(db, code, subtotal, now, pick).value.value.kind.FromVoucher?
    ensures
      var row := Discounted(db, code, subtotal, now, pick).value.value.kind.row;
      row < |db.vouchers| && db.vouchers[row].remaining > 0
  {
  }

  lemma {:induction false} NoneStays(shelf: Shelf, items: seq<CartItem>, i: nat)
    requires i <= |items| && Reserve(shelf, items[..i]).None?
    ensures Reserve(shelf, items).None?
    decreases |items| - i
  {
    if i < |items| {
      assert items[..i + 1][..i] == items[..i];
      NoneStays(shelf, items, i + 1);
    } else {
      assert items[..i] == items;
    }
  }
}

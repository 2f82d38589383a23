/** The commerce database and its transactions.

    A table is a `map` keyed by its primary or unique key, or a `seq` when rows are only appended
    (the row's index is then its id). Each function below is one database transaction: it returns
    the committed state, or the error with which everything was rolled back. */
module Commerce {
  import opened Prelude
  import opened Contracts
  import opened Pricing

  datatype Error = NotFound | Invalid | Conflict | Forbidden | Retry | Skipped

  datatype Status = SedangDikemas | MenungguPengirim | SedangDikirim | PesananSelesai | Dikembalikan

  datatype JobStatus = Pending | Taken | Completed

  datatype EntryKind = TopUpEntry | PaymentEntry | RefundEntry(order: OrderId)
  datatype Entry = Entry(user: UserId, amount: int, kind: EntryKind)

  datatype Stock = Stock(units: int, version: nat)
  datatype PendingStock = PendingStock(seller: UserId, units: nat)

  datatype StoreRef = StoreRef(seller: UserId, name: string, slug: string, version: nat)
  datatype ProductRef = ProductRef(
    store: StoreId, name: string, slug: string, price: nat, imageKey: Option<string>,
    deleted: bool, version: nat)

  datatype CartItem = CartItem(product: ProductId, quantity: nat)
  datatype Cart = Cart(store: Option<StoreId>, items: seq<CartItem>)

  datatype CodeType = VoucherCode | PromoCode

  datatype Line = Line(product: Option<ProductId>, name: string, price: nat, quantity: nat)
  datatype Order = Order(
    buyer: UserId, store: StoreId, delivery: Delivery,
    subtotal: nat, discountAmount: nat, discountCode: Option<string>, discountType: Option<CodeType>,
    fee: nat, ppn: nat, total: nat,
    status: Status, createdAt: int,
    lines: seq<Line>, history: seq<Status>)

  datatype Job = Job(driver: Option<UserId>, status: JobStatus, fee: nat)

  datatype Db = Db(
    wallets: map<UserId, int>,
    ledger: seq<Entry>,
    stores: map<StoreId, StoreRef>,
    products: map<ProductId, ProductRef>,
    inventory: map<ProductId, Stock>,
    pending: map<ProductId, PendingStock>,
    carts: map<UserId, Cart>,
    orders: seq<Order>,
    jobs: map<OrderId, Job>,
    vouchers: seq<Voucher>,
    promos: seq<Promo>,
    outbox: seq<CommerceEvent>)

  const EMPTY := Db(map[], [], map[], map[], map[], map[], map[], [], map[], [], [], [])

  // ----- wallets -----

  function Balance(db: Db, user: UserId): int {
    if user in db.wallets then db.wallets[user] else 0
  }

  function OpenWallet(db: Db, user: UserId): Db {
    db.(wallets := db.wallets[user := Balance(db, user)])
  }

  function TopUp(db: Db, user: UserId, amount: nat): Db {
    db.(wallets := db.wallets[user := Balance(db, user) + amount],
        ledger := db.ledger + [Entry(user, amount, TopUpEntry)])
  }

  // ----- stock: every writer goes through `Put`, which bumps the version and enqueues the event -----

  datatype Shelf = Shelf(inventory: map<ProductId, Stock>, outbox: seq<CommerceEvent>)

  function ShelfOf(db: Db): Shelf { Shelf(db.inventory, db.outbox) }

  function WithShelf(db: Db, shelf: Shelf): Db {
    db.(inventory := shelf.inventory, outbox := shelf.outbox)
  }

  function Put(shelf: Shelf, p: ProductId, units: int): Shelf {
    var version := (if p in shelf.inventory then shelf.inventory[p].version else 0) + 1;
    Shelf(shelf.inventory[p := Stock(units, version)], shelf.outbox + [InventoryChanged(p, units, version)])
  }

  /** The guarded decrement loop of a checkout: fails at the first product without enough stock. */
  function Reserve(shelf: Shelf, items: seq<CartItem>): Option<Shelf> {
    if items == [] then Some(shelf)
    else
      var before := Reserve(shelf, items[..|items| - 1]);
      var item := items[|items| - 1];
      if before.None? || item.product !in before.value.inventory
         || before.value.inventory[item.product].units < item.quantity
      then None
      else Some(Put(before.value, item.product,
                    before.value.inventory[item.product].units - item.quantity))
  }

  /** The restock loop of a returned order: products no longer stocked are passed over. */
  function Restock(shelf: Shelf, lines: seq<Line>): Shelf {
    if lines == [] then shelf
    else
      var before := Restock(shelf, lines[..|lines| - 1]);
      var line := lines[|lines| - 1];
      if line.product.None? || line.product.value !in before.inventory then before
      else Put(before, line.product.value, before.inventory[line.product.value].units + line.quantity)
  }

  function SetStock(db: Db, seller: UserId, p: ProductId, units: nat): Result<Db, Error> {
    if p !in db.products || db.products[p].store !in db.stores then
      Ok(db.(pending := db.pending[p := PendingStock(seller, units)]))
    else if db.products[p].deleted then Err(NotFound)
    else if db.stores[db.products[p].store].seller != seller then Err(Forbidden)
    else Ok(WithShelf(db, Put(ShelfOf(db), p, units)))
  }

  // ----- carts -----

  function FindItem(items: seq<CartItem>, p: ProductId): (found: Option<nat>)
    ensures found.Some? ==> found.value < |items| && items[found.value].product == p
    ensures found.None? ==> forall i :: 0 <= i < |items| ==> items[i].product != p
  {
    if items == [] then None
    else if items[|items| - 1].product == p then Some(|items| - 1)
    else FindItem(items[..|items| - 1], p)
  }

  function DropItem(items: seq<CartItem>, p: ProductId): seq<CartItem> {
    if items == [] then []
    else
      var init := DropItem(items[..|items| - 1], p);
      if items[|items| - 1].product == p then init else init + [items[|items| - 1]]
  }

  function CartOf(db: Db, buyer: UserId): Cart {
    if buyer in db.carts then db.carts[buyer] else Cart(None, [])
  }

  /** Lazily creates the cart, or heals one that still names a store after losing its last item. */
  function OpenCart(db: Db, buyer: UserId): Db {
    var cart := CartOf(db, buyer);
    db.(carts := db.carts[buyer := if cart.items == [] then Cart(None, []) else cart])
  }

  /** `synced` is the answer of the replica check made before the transaction began. */
  function AddItem(db: Db, buyer: UserId, p: ProductId, quantity: int, synced: bool): Result<Db, Error> {
    if quantity <= 0 then Err(Invalid)
    else if !synced then Err(Conflict)
    else if p !in db.products || p !in db.inventory then Err(NotFound)
    else if db.inventory[p].units < quantity then Err(Invalid)
    else
      var cart := CartOf(db, buyer);
      var store := db.products[p].store;
      if cart.store.Some? && cart.store.value != store then Err(Conflict)
      else
        var at := FindItem(cart.items, p);
        if at.Some? then
          var sum := cart.items[at.value].quantity + quantity;
          if db.inventory[p].units < sum then Err(Invalid)
          else Ok(db.(carts := db.carts[buyer := Cart(Some(store), cart.items[at.value := CartItem(p, sum)])]))
        else Ok(db.(carts := db.carts[buyer := Cart(Some(store), cart.items + [CartItem(p, quantity)])]))
  }

  function SetQuantity(db: Db, buyer: UserId, p: ProductId, quantity: int): Result<Db, Error> {
    if quantity <= 0 then Err(Invalid)
    else
      var cart := CartOf(db, buyer);
      var at := FindItem(cart.items, p);
      if at.None? || p !in db.products || p !in db.inventory then Err(NotFound)
      else if db.inventory[p].units < quantity then Err(Invalid)
      else Ok(db.(carts := db.carts[buyer := cart.(items := cart.items[at.value := CartItem(p, quantity)])]))
  }

  function RemoveItem(db: Db, buyer: UserId, p: ProductId): Result<Db, Error> {
    var cart := CartOf(db, buyer);
    if FindItem(cart.items, p).None? then Err(NotFound)
    else
      var left := DropItem(cart.items, p);
      Ok(db.(carts := db.carts[buyer := Cart(if left == [] then None else cart.store, left)]))
  }

  function ClearCart(db: Db, buyer: UserId): Db {
    if buyer in db.carts then db.(carts := db.carts[buyer := Cart(None, [])]) else db
  }

  // ----- checkout -----

  /** `pick` is which row the code query happens to return, if the code names several. */
  datatype Request = Request(
    addressFound: bool, delivery: Delivery, fees: Fees, code: Option<string>, now: int, pick: nat)

  /** The cart joined with the product replica and the inventory. */
  function Joined(db: Db, items: seq<CartItem>): seq<CartItem> {
    if items == [] then []
    else
      var init := Joined(db, items[..|items| - 1]);
      var item := items[|items| - 1];
      if item.product in db.products && item.product in db.inventory then init + [item] else init
  }

  function PricedLine(db: Db, item: CartItem): Line {
    if item.product in db.products then
      Line(Some(item.product), db.products[item.product].name, db.products[item.product].price, item.quantity)
    else Line(Some(item.product), "", 0, item.quantity)
  }

  function Priced(db: Db, items: seq<CartItem>): seq<Line> {
    seq(|items|, i requires 0 <= i < |items| => PricedLine(db, items[i]))
  }

  function Subtotal(lines: seq<Line>): nat {
    if lines == [] then 0
    else Subtotal(lines[..|lines| - 1]) + lines[|lines| - 1].price * lines[|lines| - 1].quantity
  }

  function Discounted(db: Db, code: Option<string>, subtotal: nat, now: int, pick: nat): Result<Option<Discount>, Error> {
    if code.None? || code.value == "" then Ok(None)
    else
      match ValidateCode(db.vouchers, db.promos, code.value, subtotal, now, pick)
      case Ok(d) => Ok(Some(d))
      case Err(UnknownCode) => Err(NotFound)
      case Err(_) => Err(Invalid)
  }

  function AmountOff(discount: Option<Discount>): nat {
    if discount.Some? then discount.value.amount else 0
  }

  function Insert(items: seq<CartItem>, item: CartItem): seq<CartItem> {
    if items == [] || items[|items| - 1].product <= item.product then items + [item]
    else Insert(items[..|items| - 1], item) + [items[|items| - 1]]
  }

  /** By product id, so that two checkouts lock the inventory rows in the same order. */
  function Sorted(items: seq<CartItem>): seq<CartItem> {
    if items == [] then [] else Insert(Sorted(items[..|items| - 1]), items[|items| - 1])
  }

  function UseVoucher(vouchers: seq<Voucher>, discount: Option<Discount>): seq<Voucher> {
    if discount.Some? && discount.value.kind.FromVoucher? && discount.value.kind.row < |vouchers| then
      var row := discount.value.kind.row;
      vouchers[row := vouchers[row].(remaining := vouchers[row].remaining - 1)]
    else vouchers
  }

  function NewOrder(buyer: UserId, store: StoreId, req: Request, lines: seq<Line>, discount: Option<Discount>, totals: Totals): Order {
    Order(buyer, store, req.delivery, Subtotal(lines),
          AmountOff(discount),
          if discount.Some? then Some(discount.value.code) else None,
          if discount.None? then None
          else if discount.value.kind.FromVoucher? then Some(VoucherCode) else Some(PromoCode),
          totals.deliveryFee, totals.ppn, totals.total,
          SedangDikemas, req.now, lines, [SedangDikemas])
  }

  /** One checkout: every guard in the order the service evaluates them. */
  function Checkout(db: Db, buyer: UserId, req: Request): Result<Db, Error> {
    var cart := CartOf(db, buyer);
    if !req.addressFound then Err(NotFound)
    else if cart.store.None? then Err(Invalid)
    else
      var items := Joined(db, cart.items);
      var lines := Priced(db, items);
      if items == [] then Err(Invalid)
      else
        var discount := Discounted(db, req.code, Subtotal(lines), req.now, req.pick);
        if discount.Err? then Err(discount.error)
        else
          var totals := CalculateTotals(Subtotal(lines), req.delivery, req.fees, AmountOff(discount.value));
          if Balance(db, buyer) < totals.total then Err(Invalid)
          else
            var shelf := Reserve(ShelfOf(db), Sorted(items));
            if shelf.None? then Err(Invalid)
            else Ok(Placed(db, buyer, shelf.value, discount.value,
                           NewOrder(buyer, cart.store.value, req, lines, discount.value, totals)))
  }

  function Placed(db: Db, buyer: UserId, shelf: Shelf, discount: Option<Discount>, order: Order): Db {
    WithShelf(db, shelf).(
      wallets := db.wallets[buyer := Balance(db, buyer) - order.total],
      ledger := db.ledger + [Entry(buyer, 0 - order.total, PaymentEntry)],
      vouchers := UseVoucher(db.vouchers, discount),
      orders := db.orders + [order],
      carts := db.carts[buyer := Cart(None, [])])
  }

  // ----- the life of an order -----

  function Advance(order: Order, status: Status): Order {
    order.(status := status, history := order.history + [status])
  }

  /** `seller_id` is unique, so the seller's store is the order's store iff that store is theirs. */
  function ProcessOrder(db: Db, seller: UserId, o: OrderId): Result<Db, Error> {
    if o >= |db.orders| || db.orders[o].store !in db.stores || db.stores[db.orders[o].store].seller != seller
    then Err(NotFound)
    else if db.orders[o].status != SedangDikemas || o in db.jobs then Err(Conflict)
    else Ok(db.(orders := db.orders[o := Advance(db.orders[o], MenungguPengirim)],
                jobs := db.jobs[o := Job(None, Pending, db.orders[o].fee)]))
  }

  function TakeJob(db: Db, o: OrderId, driver: UserId): Result<Db, Error> {
    if o !in db.jobs || db.jobs[o].status != Pending then Err(Conflict)
    else if o >= |db.orders| || db.orders[o].status != MenungguPengirim then Err(Conflict)
    else Ok(db.(jobs := db.jobs[o := db.jobs[o].(status := Taken, driver := Some(driver))],
                orders := db.orders[o := Advance(db.orders[o], SedangDikirim)]))
  }

  function SoldItems(lines: seq<Line>): seq<SoldItem> {
    seq(|lines|, i requires 0 <= i < |lines| => SoldItem(lines[i].product, lines[i].quantity))
  }

  function CompletionOf(o: OrderId, order: Order): CommerceEvent {
    OrderCompleted(o, order.buyer, SoldItems(order.lines))
  }

  function CompleteJob(db: Db, o: OrderId, driver: UserId): Result<Db, Error> {
    if o !in db.jobs || db.jobs[o].driver != Some(driver) || db.jobs[o].status != Taken then Err(Conflict)
    else if o >= |db.orders| || db.orders[o].status != SedangDikirim then Err(Conflict)
    else Ok(db.(jobs := db.jobs[o := db.jobs[o].(status := Completed)],
                orders := db.orders[o := Advance(db.orders[o], PesananSelesai)],
                outbox := db.outbox + [CompletionOf(o, db.orders[o])]))
  }

  predicate Final(s: Status) { s == PesananSelesai || s == Dikembalikan }

  /** The overdue transaction of one order: mark, refund, restock; skipped once the order is final. */
  function ReturnOrder(db: Db, o: OrderId): Result<Db, Error> {
    if o >= |db.orders| || Final(db.orders[o].status) then Err(Skipped)
    else
      var order := db.orders[o];
      Ok(WithShelf(db, Restock(ShelfOf(db), order.lines)).(
        orders := db.orders[o := Advance(order, Dikembalikan)],
        wallets := db.wallets[order.buyer := Balance(db, order.buyer) + order.total],
        ledger := db.ledger + [Entry(order.buyer, order.total, RefundEntry(o))]))
  }

  // ----- replicas of catalog -----

  /** New products start with no stock; stock the store's own seller set before the product
      replicated is applied on arrival, and anyone else's is dropped. */
  function Arrival(db: Db, p: ProductId, store: StoreId): Shelf {
    var stocked := if p in db.inventory then ShelfOf(db) else Shelf(db.inventory[p := Stock(0, 0)], db.outbox);
    if p in db.pending && store in db.stores && db.stores[store].seller == db.pending[p].seller
    then Put(stocked, p, db.pending[p].units)
    else stocked
  }

  predicate SellerTaken(stores: map<StoreId, StoreRef>, s: StoreId, seller: UserId) {
    exists other :: other in stores && other != s && stores[other].seller == seller
  }

  /** `Retry` is a constraint violation: the consumer nacks and the broker redelivers later. */
  function ReplicateStore(db: Db, s: StoreId, ref: StoreRef): Result<Db, Error> {
    if s in db.stores && db.stores[s].version >= ref.version then Ok(db)
    else if SellerTaken(db.stores, s, ref.seller) then Err(Retry)
    else Ok(db.(stores := db.stores[s := ref]))
  }

  function RefOf(store: StoreId, f: ProductFields, deleted: bool, version: nat): ProductRef {
    ProductRef(store, f.name, f.slug, f.price, f.imageKey, deleted, version)
  }

  function ReplicateProduct(db: Db, p: ProductId, store: StoreId, f: ProductFields, version: nat): Result<Db, Error> {
    if p in db.products && db.products[p].version >= version then Ok(db)
    else if store !in db.stores then Err(Retry)
    else if p in db.products && db.products[p].deleted then
      Ok(db.(products := db.products[p := RefOf(store, f, true, version)]))
    else
      var shelf := Arrival(db, p, store);
      Ok(db.(products := db.products[p := RefOf(store, f, false, version)],
             inventory := shelf.inventory, outbox := shelf.outbox, pending := db.pending - {p}))
  }

  /** A deletion of a product never seen here is dropped: there is no row to tombstone. */
  function ReplicateDeletion(db: Db, p: ProductId, version: nat): Result<Db, Error> {
    if p !in db.products || db.products[p].version >= version then Ok(db)
    else Ok(db.(products := db.products[p := db.products[p].(deleted := true, version := version)],
                carts := map u | u in db.carts :: db.carts[u].(items := DropItem(db.carts[u].items, p)),
                inventory := db.inventory - {p},
                pending := db.pending - {p}))
  }

  function Consume(db: Db, e: CatalogEvent): Result<Db, Error> {
    match e
    case StoreUpserted(s, seller, name, slug, version) => ReplicateStore(db, s, StoreRef(seller, name, slug, version))
    case ProductUpserted(p, store, f, version) => ReplicateProduct(db, p, store, f, version)
    case ProductDeleted(p, version) => ReplicateDeletion(db, p, version)
  }

  // ----- codes -----

  function CreateVoucher(db: Db, v: Voucher): Result<Db, Error> {
    if exists i :: 0 <= i < |db.vouchers| && db.vouchers[i].code == v.code then Err(Conflict)
    else Ok(db.(vouchers := db.vouchers + [v]))
  }

  function CreatePromo(db: Db, p: Promo): Result<Db, Error> {
    if exists i :: 0 <= i < |db.promos| && db.promos[i].code == p.code then Err(Conflict)
    else Ok(db.(promos := db.promos + [p]))
  }

  // ----- runs -----

  datatype Op =
    | DoOpenWallet(user: UserId)
    | DoTopUp(user: UserId, amount: nat)
    | DoOpenCart(buyer: UserId)
    | DoAddItem(buyer: UserId, product: ProductId, quantity: int, synced: bool)
    | DoSetQuantity(buyer: UserId, product: ProductId, quantity: int)
    | DoRemoveItem(buyer: UserId, product: ProductId)
    | DoClearCart(buyer: UserId)
    | DoCheckout(buyer: UserId, req: Request)
    | DoProcessOrder(seller: UserId, order: OrderId)
    | DoTakeJob(order: OrderId, driver: UserId)
    | DoCompleteJob(order: OrderId, driver: UserId)
    | DoReturnOrder(order: OrderId)
    | DoSetStock(seller: UserId, product: ProductId, units: nat)
    | DoConsume(event: CatalogEvent)
    | DoCreateVoucher(voucher: Voucher)
    | DoCreatePromo(promo: Promo)

  function Attempt(db: Db, op: Op): Result<Db, Error> {
    match op
    case DoOpenWallet(user) => Ok(OpenWallet(db, user))
    case DoTopUp(user, amount) => Ok(TopUp(db, user, amount))
    case DoOpenCart(buyer) => Ok(OpenCart(db, buyer))
    case DoAddItem(buyer, p, q, synced) => AddItem(db, buyer, p, q, synced)
    case DoSetQuantity(buyer, p, q) => SetQuantity(db, buyer, p, q)
    case DoRemoveItem(buyer, p) => RemoveItem(db, buyer, p)
    case DoClearCart(buyer) => Ok(ClearCart(db, buyer))
    case DoCheckout(buyer, req) => Checkout(db, buyer, req)
    case DoProcessOrder(seller, o) => ProcessOrder(db, seller, o)
    case DoTakeJob(o, driver) => TakeJob(db, o, driver)
    case DoCompleteJob(o, driver) => CompleteJob(db, o, driver)
    case DoReturnOrder(o) => ReturnOrder(db, o)
    case DoSetStock(seller, p, units) => SetStock(db, seller, p, units)
    case DoConsume(e) => Consume(db, e)
    case DoCreateVoucher(v) => CreateVoucher(db, v)
    case DoCreatePromo(p) => CreatePromo(db, p)
  }

  /** A transaction that fails leaves no trace. */
  function Step(db: Db, op: Op): Db {
    var r := Attempt(db, op);
    if r.Ok? then r.value else db
  }

  function Run(db: Db, ops: seq<Op>): Db {
    if ops == [] then db else Step(Run(db, ops[..|ops| - 1]), ops[|ops| - 1])
  }

  /** What the rest of the system guarantees about one operation: catalog never moves a product to
      another store, and a new voucher is created with a usage count that is not negative. */
  predicate Allowed(op: Op, home: ProductId -> StoreId) {
    match op
    case DoConsume(ProductUpserted(p, store, _, _)) => store == home(p)
    case DoCreateVoucher(v) => v.remaining >= 0
    case _ => true
  }

  ghost predicate AllAllowed(ops: seq<Op>, home: ProductId -> StoreId) {
    forall i :: 0 <= i < |ops| ==> Allowed(ops[i], home)
  }

  // ----- which tables an operation can touch -----

  predicate WalletOp(op: Op) { op.DoOpenWallet? || op.DoTopUp? }

  predicate CartOp(op: Op) {
    op.DoOpenCart? || op.DoAddItem? || op.DoSetQuantity? || op.DoRemoveItem? || op.DoClearCart?
  }

  predicate CodeOp(op: Op) { op.DoCreateVoucher? || op.DoCreatePromo? }

  lemma WalletFrame(db: Db, op: Op)
    requires WalletOp(op) && Attempt(db, op).Ok?
    ensures var d := Attempt(db, op).value; d == db.(wallets := d.wallets, ledger := d.ledger)
  {
    hide Checkout, ReturnOrder, Consume, SetStock, AddItem, SetQuantity;
  }

  lemma CartFrame(db: Db, op: Op)
    requires CartOp(op) && Attempt(db, op).Ok?
    ensures var d := Attempt(db, op).value; d == db.(carts := d.carts)
  {
    hide Checkout, ReturnOrder, Consume, SetStock;
  }

  lemma CodeFrame(db: Db, op: Op)
    requires CodeOp(op) && Attempt(db, op).Ok?
    ensures var d := Attempt(db, op).value; d == db.(vouchers := d.vouchers, promos := d.promos)
  {
    hide Checkout, ReturnOrder, Consume, SetStock, AddItem, SetQuantity;
  }

  predicate JobOp(op: Op) { op.DoProcessOrder? || op.DoTakeJob? || op.DoCompleteJob? }

  lemma JobFrame(db: Db, op: Op)
    requires JobOp(op) && Attempt(db, op).Ok?
    ensures var d := Attempt(db, op).value; d == db.(orders := d.orders, jobs := d.jobs, outbox := d.outbox)
  {
    hide Checkout, ReturnOrder, Consume, SetStock, AddItem, SetQuantity;
  }

  lemma CheckoutFrame(db: Db, buyer: UserId, req: Request)
    requires Checkout(db, buyer, req).Ok?
    ensures
      var d := Checkout(db, buyer, req).value;
      d == db.(wallets := d.wallets, ledger := d.ledger, inventory := d.inventory, outbox := d.outbox,
               vouchers := d.vouchers, orders := d.orders, carts := db.carts[buyer := Cart(None, [])])
  {
  }

  lemma ReturnFrame(db: Db, o: OrderId)
    requires ReturnOrder(db, o).Ok?
    ensures
      var d := ReturnOrder(db, o).value;
      d == db.(wallets := d.wallets, ledger := d.ledger, inventory := d.inventory, outbox := d.outbox,
               orders := d.orders)
  {
  }

  lemma SetStockFrame(db: Db, seller: UserId, p: ProductId, units: nat)
    requires SetStock(db, seller, p, units).Ok?
    ensures
      var d := SetStock(db, seller, p, units).value;
      d == db.(pending := d.pending, inventory := d.inventory, outbox := d.outbox)
  {
  }

  lemma ConsumeFrame(db: Db, e: CatalogEvent)
    requires Consume(db, e).Ok?
    ensures
      var d := Consume(db, e).value;
      d == db.(stores := d.stores, products := d.products, inventory := d.inventory,
               pending := d.pending, carts := d.carts, outbox := d.outbox)
  {
  }
}

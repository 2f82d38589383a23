/** Orders over whole runs: lifecycle paths, delivery jobs, completion events and earnings. */
module CommerceOrders {
  import opened Prelude
  import opened Contracts
  import opened Pricing
  import opened Commerce
  import opened CommerceReplica

  predicate Follows(a: Status, b: Status) {
    match a
    case SedangDikemas => b == MenungguPengirim || b == Dikembalikan
    case MenungguPengirim => b == SedangDikirim || b == Dikembalikan
    case SedangDikirim => b == PesananSelesai || b == Dikembalikan
    case _ => false
  }

  /** The status history is a path of the lifecycle from its start to the current status. */
  ghost predicate PathOk(order: Order) {
    var h := order.history;
    && |h| > 0 && h[0] == SedangDikemas && h[|h| - 1] == order.status
    && (forall k :: 0 <= k < |h| - 1 ==> Follows(h[k], h[k + 1]))
    && (order.status == Dikembalikan ==> |h| >= 2)
  }

  /** How far delivery got: the status, or for a returned order the status it was returned from. */
  function Stage(order: Order): Status {
    if order.status == Dikembalikan && |order.history| >= 2 then order.history[|order.history| - 2]
    else order.status
  }

  ghost predicate JobOk(jobs: map<OrderId, Job>, o: OrderId, order: Order) {
    match Stage(order)
    case SedangDikemas => o !in jobs
    case MenungguPengirim => o in jobs && jobs[o] == Job(None, Pending, order.fee)
    case SedangDikirim => o in jobs && jobs[o].status == Taken && jobs[o].driver.Some? && jobs[o].fee == order.fee
    case PesananSelesai => o in jobs && jobs[o].status == Completed && jobs[o].driver.Some? && jobs[o].fee == order.fee
    case Dikembalikan => false
  }

  /** What was ordered: distinct products of the order's own store, at least one unit of each. */
  ghost predicate LinesOk(order: Order, home: ProductId -> StoreId) {
    && (forall i :: 0 <= i < |order.lines| ==>
          && order.lines[i].quantity >= 1
          && order.lines[i].product.Some?
          && home(order.lines[i].product.value) == order.store)
    && (forall i, j :: 0 <= i < j < |order.lines| ==> order.lines[i].product != order.lines[j].product)
  }

  function CompletionsOf(o: OrderId): CommerceEvent -> int {
    (e: CommerceEvent) => if e.OrderCompleted? && e.order == o then 1 else 0
  }

  ghost predicate AnnouncedOnce(db: Db, o: OrderId) {
    Sum(db.outbox, CompletionsOf(o)) == if o < |db.orders| && db.orders[o].status == PesananSelesai then 1 else 0
  }

  ghost predicate CompletionsExact(db: Db) {
    forall i :: 0 <= i < |db.outbox| && db.outbox[i].OrderCompleted? ==>
      var o := db.outbox[i].order;
      o < |db.orders| && db.outbox[i] == CompletionOf(o, db.orders[o])
  }

  ghost predicate OrderOk(db: Db, o: OrderId, home: ProductId -> StoreId)
    requires o < |db.orders|
  {
    PathOk(db.orders[o]) && JobOk(db.jobs, o, db.orders[o]) && LinesOk(db.orders[o], home)
  }

  ghost predicate OrdersOk(db: Db, home: ProductId -> StoreId) {
    && (forall o :: 0 <= o < |db.orders| ==> OrderOk(db, o, home))
    && (forall o :: o in db.jobs ==> o < |db.orders|)
  }

  ghost predicate CompletionsOk(db: Db) {
    (forall o :: AnnouncedOnce(db, o)) && CompletionsExact(db)
  }

  ghost predicate Lifecycle(db: Db, home: ProductId -> StoreId) { OrdersOk(db, home) && CompletionsOk(db) }

  // ----- the moves -----

  lemma AdvanceKeepsPath(order: Order, status: Status)
    requires PathOk(order) && Follows(order.status, status)
    ensures PathOk(Advance(order, status))
    ensures status == Dikembalikan ==> Stage(Advance(order, status)) == order.status
  {
  }

  /** One order moves one step and its job moves with it. */
  lemma MoveKeepsOrders(db: Db, d: Db, o: OrderId, status: Status, home: ProductId -> StoreId)
    requires OrdersOk(db, home) && o < |db.orders| && Follows(db.orders[o].status, status)
    requires d.orders == db.orders[o := Advance(db.orders[o], status)]
    requires forall x :: x != o ==> (x in d.jobs <==> x in db.jobs) && (x in d.jobs ==> d.jobs[x] == db.jobs[x])
    requires JobOk(d.jobs, o, d.orders[o])
    ensures OrdersOk(d, home)
  {
    hide LinesOk;
    assert OrderOk(db, o, home);
    AdvanceKeepsPath(db.orders[o], status);
    SameLines(db.orders[o], d.orders[o], home);
    forall x | 0 <= x < |d.orders| ensures OrderOk(d, x, home) {
      assert OrderOk(db, x, home);
    }
  }

  lemma JobOpsKeepOrders(db: Db, op: Op, home: ProductId -> StoreId)
    requires OrdersOk(db, home) && JobOp(op) && Attempt(db, op).Ok?
    ensures OrdersOk(Attempt(db, op).value, home)
  {
    hide Checkout, ReturnOrder, Consume, SetStock, AddItem, SetQuantity, LinesOk;
    var o, d := op.order, Attempt(db, op).value;
    assert OrderOk(db, o, home);
    hide OrdersOk;
    MoveKeepsOrders(db, d, o, d.orders[o].status, home);
  }

  lemma SameLines(a: Order, b: Order, home: ProductId -> StoreId)
    requires LinesOk(a, home) && a.lines == b.lines && a.store == b.store
    ensures LinesOk(b, home)
  {
  }

  lemma ReturnKeepsOrders(db: Db, o: OrderId, home: ProductId -> StoreId)
    requires OrdersOk(db, home) && ReturnOrder(db, o).Ok?
    ensures OrdersOk(ReturnOrder(db, o).value, home)
  {
    hide LinesOk, Restock;
    assert OrderOk(db, o, home);
    AdvanceKeepsPath(db.orders[o], Dikembalikan);
    MoveKeepsOrders(db, ReturnOrder(db, o).value, o, Dikembalikan, home);
  }

  lemma {:induction false} JoinedKeeps(db: Db, items: seq<CartItem>)
    ensures forall x :: x in Joined(db, items) <==> x in items && x.product in db.products && x.product in db.inventory
    ensures Distinct(items) ==> Distinct(Joined(db, items))
  {
    if items != [] {
      var init, last := items[..|items| - 1], items[|items| - 1];
      JoinedKeeps(db, init);
      assert items == init + [last];
      if Distinct(items) {
        forall x | x in Joined(db, init) ensures x.product != last.product {
          assert x in init;
        }
      }
    }
  }

  lemma PricedLinesOk(db: Db, cart: Cart, order: Order, home: ProductId -> StoreId)
    requires CartOk(db.inventory, cart, home) && cart.store == Some(order.store)
    requires order.lines == Priced(db, Joined(db, cart.items))
    ensures LinesOk(order, home)
  {
    var items := Joined(db, cart.items);
    JoinedKeeps(db, cart.items);
    forall i | 0 <= i < |items| ensures items[i].quantity >= 1 && Some(home(items[i].product)) == cart.store {
      assert items[i] in cart.items;
    }
  }

  lemma NewOrderOk(db: Db, buyer: UserId, req: Request, home: ProductId -> StoreId)
    requires Replica(db, home) && Checkout(db, buyer, req).Ok?
    ensures
      var order := Checkout(db, buyer, req).value.orders[|db.orders|];
      PathOk(order) && LinesOk(order, home) && order.status == SedangDikemas
  {
    CartOfOk(db, buyer, home);
    hide Replica, CartOk, LinesOk, Joined, Reserve, Sorted;
    PricedLinesOk(db, CartOf(db, buyer), Checkout(db, buyer, req).value.orders[|db.orders|], home);
  }

  lemma CheckoutAppends(db: Db, buyer: UserId, req: Request)
    requires Checkout(db, buyer, req).Ok?
    ensures
      var d := Checkout(db, buyer, req).value;
      |d.orders| == |db.orders| + 1 && d.orders[..|db.orders|] == db.orders && d.jobs == db.jobs
  {
    hide Reserve, Sorted, Joined, Priced, Discounted, Subtotal, CalculateTotals, UseVoucher, NewOrder;
  }

  lemma CheckoutKeepsOrders(db: Db, buyer: UserId, req: Request, home: ProductId -> StoreId)
    requires OrdersOk(db, home) && Replica(db, home) && Checkout(db, buyer, req).Ok?
    ensures OrdersOk(Checkout(db, buyer, req).value, home)
  {
    hide LinesOk, Replica, PathOk, Checkout;
    NewOrderOk(db, buyer, req, home);
    CheckoutAppends(db, buyer, req);
    var d := Checkout(db, buyer, req).value;
    assert forall x :: 0 <= x < |db.orders| ==> d.orders[x] == d.orders[..|db.orders|][x];
    forall x | 0 <= x < |d.orders| ensures OrderOk(d, x, home) {
      if x < |db.orders| {
        assert OrderOk(db, x, home);
      }
    }
  }

  // ----- completion events -----

  /** Appends only stock events, and no order becomes or stops being completed. */
  ghost predicate CompletionsFrame(db: Db, d: Db) {
    && |db.outbox| <= |d.outbox| && d.outbox[..|db.outbox|] == db.outbox
    && (forall i :: |db.outbox| <= i < |d.outbox| ==> d.outbox[i].InventoryChanged?)
    && |db.orders| <= |d.orders|
    && (forall o :: 0 <= o < |db.orders| ==>
          && d.orders[o].buyer == db.orders[o].buyer && d.orders[o].lines == db.orders[o].lines
          && (d.orders[o].status == PesananSelesai) == (db.orders[o].status == PesananSelesai))
    && (forall o :: |db.orders| <= o < |d.orders| ==> d.orders[o].status != PesananSelesai)
  }

  lemma {:induction false} NoCompletions(events: seq<CommerceEvent>, o: OrderId)
    requires forall i :: 0 <= i < |events| ==> events[i].InventoryChanged?
    ensures Sum(events, CompletionsOf(o)) == 0
  {
    if events != [] {
      NoCompletions(events[..|events| - 1], o);
    }
  }

  lemma FrameKeepsCompletions(db: Db, d: Db)
    requires CompletionsOk(db) && CompletionsFrame(db, d)
    ensures CompletionsOk(d)
  {
    var added := d.outbox[|db.outbox|..];
    assert d.outbox == db.outbox + added;
    forall o ensures AnnouncedOnce(d, o) {
      assert AnnouncedOnce(db, o);
      SumConcat(db.outbox, added, CompletionsOf(o));
      NoCompletions(added, o);
    }
    forall i | 0 <= i < |d.outbox| && d.outbox[i].OrderCompleted?
      ensures d.outbox[i].order < |d.orders| && d.outbox[i] == CompletionOf(d.outbox[i].order, d.orders[d.outbox[i].order])
    {
      assert i < |db.outbox| && d.outbox[i] == db.outbox[i];
    }
  }

  lemma {:induction false} ReserveAppends(shelf: Shelf, items: seq<CartItem>)
    requires Reserve(shelf, items).Some?
    ensures var out := Reserve(shelf, items).value.outbox;
      && |out| == |shelf.outbox| + |items| && out[..|shelf.outbox|] == shelf.outbox
      && forall i :: |shelf.outbox| <= i < |out| ==> out[i].InventoryChanged?
  {
    if items != [] {
      ReserveAppends(shelf, items[..|items| - 1]);
    }
  }

  lemma {:induction false} RestockAppends(shelf: Shelf, lines: seq<Line>)
    ensures var out := Restock(shelf, lines).outbox;
      && |shelf.outbox| <= |out| && out[..|shelf.outbox|] == shelf.outbox
      && forall i :: |shelf.outbox| <= i < |out| ==> out[i].InventoryChanged?
  {
    if lines != [] {
      RestockAppends(shelf, lines[..|lines| - 1]);
    }
  }

  lemma CheckoutKeepsCompletions(db: Db, buyer: UserId, req: Request)
    requires CompletionsOk(db) && Checkout(db, buyer, req).Ok?
    ensures CompletionsOk(Checkout(db, buyer, req).value)
  {
    ReserveAppends(ShelfOf(db), Sorted(Joined(db, CartOf(db, buyer).items)));
    hide CompletionsOk, Reserve;
    FrameKeepsCompletions(db, Checkout(db, buyer, req).value);
  }

  lemma ReturnKeepsCompletions(db: Db, o: OrderId)
    requires CompletionsOk(db) && ReturnOrder(db, o).Ok?
    ensures CompletionsOk(ReturnOrder(db, o).value)
  {
    RestockAppends(ShelfOf(db), db.orders[o].lines);
    hide CompletionsOk, Restock;
    FrameKeepsCompletions(db, ReturnOrder(db, o).value);
  }

  lemma CompleteKeepsCompletions(db: Db, o: OrderId, driver: UserId)
    requires CompletionsOk(db) && CompleteJob(db, o, driver).Ok?
    ensures CompletionsOk(CompleteJob(db, o, driver).value)
  {
    var d := CompleteJob(db, o, driver).value;
    forall x ensures AnnouncedOnce(d, x) {
      assert AnnouncedOnce(db, x);
      SumAppend(db.outbox, CompletionOf(o, db.orders[o]), CompletionsOf(x));
    }
  }

  ghost predicate AppendsStock(before: seq<CommerceEvent>, after: seq<CommerceEvent>) {
    && |before| <= |after| && after[..|before|] == before
    && forall i :: |before| <= i < |after| ==> after[i].InventoryChanged?
  }

  lemma SetStockAppends(db: Db, seller: UserId, p: ProductId, units: nat)
    requires SetStock(db, seller, p, units).Ok?
    ensures AppendsStock(db.outbox, SetStock(db, seller, p, units).value.outbox)
  {
  }

  lemma ArrivalAppends(db: Db, p: ProductId, store: StoreId)
    ensures AppendsStock(db.outbox, Arrival(db, p, store).outbox)
  {
  }

  lemma ConsumeAppends(db: Db, e: CatalogEvent)
    requires Consume(db, e).Ok?
    ensures AppendsStock(db.outbox, Consume(db, e).value.outbox)
  {
    if e.ProductUpserted? {
      ArrivalAppends(db, e.product, e.store);
    }
    hide Arrival;
  }

  lemma OtherOpsKeepCompletions(db: Db, op: Op)
    requires CompletionsOk(db) && Attempt(db, op).Ok?
    requires WalletOp(op) || CartOp(op) || CodeOp(op)
    ensures CompletionsOk(Attempt(db, op).value)
  {
    hide Attempt, CompletionsOk;
    if WalletOp(op) {
      WalletFrame(db, op);
    } else if CartOp(op) {
      CartFrame(db, op);
    } else {
      CodeFrame(db, op);
    }
    FrameKeepsCompletions(db, Attempt(db, op).value);
  }

  lemma StepKeepsCompletions(db: Db, op: Op)
    requires CompletionsOk(db)
    ensures CompletionsOk(Step(db, op))
  {
    hide Checkout, ReturnOrder, Consume, SetStock, AddItem, SetQuantity, CompleteJob, CompletionsOk;
    if Attempt(db, op).Ok? {
      match op
      case DoCheckout(buyer, req) => CheckoutKeepsCompletions(db, buyer, req);
      case DoReturnOrder(o) => ReturnKeepsCompletions(db, o);
      case DoCompleteJob(o, driver) => CompleteKeepsCompletions(db, o, driver);
      case DoProcessOrder(_, _) => FrameKeepsCompletions(db, Step(db, op));
      case DoTakeJob(_, _) => FrameKeepsCompletions(db, Step(db, op));
      case DoSetStock(seller, p, units) =>
        SetStockAppends(db, seller, p, units);
        SetStockFrame(db, seller, p, units);
        FrameKeepsCompletions(db, Step(db, op));
      case DoConsume(e) =>
        ConsumeAppends(db, e);
        ConsumeFrame(db, e);
        FrameKeepsCompletions(db, Step(db, op));
      case _ => OtherOpsKeepCompletions(db, op);
    }
  }

  lemma SameOrdersKeepOrdersOk(db: Db, d: Db, home: ProductId -> StoreId)
    requires OrdersOk(db, home) && d.orders == db.orders && d.jobs == db.jobs
    ensures OrdersOk(d, home)
  {
    forall o | 0 <= o < |d.orders| ensures OrderOk(d, o, home) {
      assert OrderOk(db, o, home);
    }
  }

  lemma OtherOpsKeepOrders(db: Db, op: Op, home: ProductId -> StoreId)
    requires OrdersOk(db, home) && Attempt(db, op).Ok?
    requires WalletOp(op) || CartOp(op) || CodeOp(op)
    ensures OrdersOk(Attempt(db, op).value, home)
  {
    hide Attempt, OrdersOk;
    if WalletOp(op) {
      WalletFrame(db, op);
    } else if CartOp(op) {
      CartFrame(db, op);
    } else {
      CodeFrame(db, op);
    }
    SameOrdersKeepOrdersOk(db, Attempt(db, op).value, home);
  }

  lemma StepKeepsOrders(db: Db, op: Op, home: ProductId -> StoreId)
    requires OrdersOk(db, home) && Replica(db, home)
    ensures OrdersOk(Step(db, op), home)
  {
    hide Checkout, ReturnOrder, Consume, SetStock, AddItem, SetQuantity, ProcessOrder, TakeJob, CompleteJob;
    hide OrdersOk, Replica;
    if Attempt(db, op).Ok? {
      match op
      case DoCheckout(buyer, req) => CheckoutKeepsOrders(db, buyer, req, home);
      case DoReturnOrder(o) => ReturnKeepsOrders(db, o, home);
      case DoSetStock(seller, p, units) =>
        SetStockFrame(db, seller, p, units);
        SameOrdersKeepOrdersOk(db, Step(db, op), home);
      case DoConsume(e) =>
        ConsumeFrame(db, e);
        SameOrdersKeepOrdersOk(db, Step(db, op), home);
      case _ =>
        if JobOp(op) {
          JobOpsKeepOrders(db, op, home);
        } else {
          OtherOpsKeepOrders(db, op, home);
        }
    }
  }

  /** In every reachable state every order's history is a lifecycle path ending in its status, its
      job is exactly where that path says, its lines are distinct products of its own store, and its
      completion was announced once if it is completed and never otherwise. */
  lemma {:induction false} LifecycleInvariant(ops: seq<Op>, home: ProductId -> StoreId)
    requires AllAllowed(ops, home)
    ensures Lifecycle(Run(EMPTY, ops), home)
  {
    if ops != [] {
      var init := ops[..|ops| - 1];
      LifecycleInvariant(init, home);
      ReplicaInvariant(init, home);
      StepKeepsOrders(Run(EMPTY, init), ops[|ops| - 1], home);
      StepKeepsCompletions(Run(EMPTY, init), ops[|ops| - 1]);
    }
  }

  /** The couplings the dashboards rely on, read off the invariant. */
  lemma JobsFollowOrders(db: Db, o: OrderId, home: ProductId -> StoreId)
    requires Lifecycle(db, home) && o in db.jobs
    ensures o < |db.orders|
    ensures db.jobs[o].status == Completed <==> db.orders[o].status == PesananSelesai
    ensures db.jobs[o].status == Taken ==> db.orders[o].status == SedangDikirim || db.orders[o].status == Dikembalikan
    ensures db.jobs[o].status == Pending ==> db.orders[o].status == MenungguPengirim || db.orders[o].status == Dikembalikan
    ensures db.jobs[o].driver.Some? <==> db.jobs[o].status != Pending
  {
    assert OrderOk(db, o, home);
    var order := db.orders[o];
    if order.status == Dikembalikan {
      var n := |order.history|;
      assert Follows(order.history[n - 2], order.history[n - 1]);
    }
  }

  /** A job is completed by the driver who took it and by nobody else, and no one can take it again. */
  lemma OnlyTheTakerCompletes(db: Db, o: OrderId, driver: UserId, other: UserId)
    requires TakeJob(db, o, driver).Ok?
    ensures CompleteJob(TakeJob(db, o, driver).value, o, other).Ok? <==> other == driver
    ensures TakeJob(TakeJob(db, o, driver).value, o, other).Err?
    ensures CompleteJob(db, o, driver).Err?
  {
  }

  // ----- earnings -----

  function EarnedIn(db: Db, driver: UserId, o: OrderId): int {
    if o in db.jobs && db.jobs[o].driver == Some(driver) && db.jobs[o].status == Completed then db.jobs[o].fee else 0
  }

  /** A driver's `totalEarnings`: delivery fees of the driver's completed jobs. */
  function Earnings(db: Db, driver: UserId, n: nat): int {
    if n == 0 then 0 else Earnings(db, driver, n - 1) + EarnedIn(db, driver, n - 1)
  }

  function CompletedFees(orders: seq<Order>): int {
    if orders == [] then 0
    else
      var last := orders[|orders| - 1];
      CompletedFees(orders[..|orders| - 1]) + (if last.status == PesananSelesai then last.fee else 0)
  }

  function AllEarnings(db: Db, drivers: seq<UserId>, n: nat): int {
    if drivers == [] then 0
    else AllEarnings(db, drivers[..|drivers| - 1], n) + Earnings(db, drivers[|drivers| - 1], n)
  }

  function EarnedBy(db: Db, drivers: seq<UserId>, o: OrderId): int {
    if drivers == [] then 0
    else EarnedBy(db, drivers[..|drivers| - 1], o) + EarnedIn(db, drivers[|drivers| - 1], o)
  }

  lemma {:induction false} EarningsByOrder(db: Db, drivers: seq<UserId>, n: nat)
    ensures AllEarnings(db, drivers, 0) == 0
    ensures AllEarnings(db, drivers, n + 1) == AllEarnings(db, drivers, n) + EarnedBy(db, drivers, n)
  {
    if drivers != [] {
      EarningsByOrder(db, drivers[..|drivers| - 1], n);
    }
  }

  lemma {:induction false} PaidToOneDriver(db: Db, drivers: seq<UserId>, o: OrderId)
    requires forall i, j :: 0 <= i < j < |drivers| ==> drivers[i] != drivers[j]
    ensures EarnedBy(db, drivers, o) ==
      if o in db.jobs && db.jobs[o].status == Completed && db.jobs[o].driver.Some? && db.jobs[o].driver.value in drivers
      then db.jobs[o].fee else 0
  {
    if drivers != [] {
      PaidToOneDriver(db, drivers[..|drivers| - 1], o);
      assert drivers == drivers[..|drivers| - 1] + [drivers[|drivers| - 1]];
    }
  }

  /** Summed over any list of distinct drivers that includes everyone who completed a job, earnings
      are exactly the delivery fees of the completed orders. */
  lemma {:induction false} EarningsAreCompletedFees(db: Db, drivers: seq<UserId>, n: nat, home: ProductId -> StoreId)
    requires Lifecycle(db, home) && n <= |db.orders|
    requires forall i, j :: 0 <= i < j < |drivers| ==> drivers[i] != drivers[j]
    requires forall o :: o in db.jobs && db.jobs[o].status == Completed ==> db.jobs[o].driver.Some? && db.jobs[o].driver.value in drivers
    ensures AllEarnings(db, drivers, n) == CompletedFees(db.orders[..n])
  {
    EarningsByOrder(db, drivers, 0);
    if n > 0 {
      EarningsAreCompletedFees(db, drivers, n - 1, home);
      EarningsByOrder(db, drivers, n - 1);
      PaidToOneDriver(db, drivers, n - 1);
      assert db.orders[..n][..n - 1] == db.orders[..n - 1];
      assert OrderOk(db, n - 1, home);
      if n - 1 in db.jobs {
        JobsFollowOrders(db, n - 1, home);
      }
    }
  }
}

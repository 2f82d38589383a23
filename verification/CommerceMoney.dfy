/** Money: every balance is its ledger, and no rupiah is created or lost by any run. */
module CommerceMoney {
  import opened Prelude
  import opened Contracts
  import opened Pricing
  import opened Commerce

  function AmountFor(u: UserId): Entry -> int { (e: Entry) => if e.user == u then e.amount else 0 }

  function TopUpFor(u: UserId): Entry -> int {
    (e: Entry) => if e.user == u && e.kind.TopUpEntry? then e.amount else 0
  }

  function AnyTopUp(): Entry -> int { (e: Entry) => if e.kind.TopUpEntry? then e.amount else 0 }

  function RefundsOf(o: OrderId): Entry -> int { (e: Entry) => if e.kind == RefundEntry(o) then 1 else 0 }

  /** Money a buyer has paid for orders that were not returned. */
  function SpentBy(u: UserId): Order -> int {
    (o: Order) => if o.buyer == u && o.status != Dikembalikan then o.total else 0
  }

  function Spent(): Order -> int { (o: Order) => if o.status != Dikembalikan then o.total else 0 }

  ghost predicate BalanceIsLedger(db: Db, u: UserId) {
    Balance(db, u) >= 0 && Balance(db, u) == Sum(db.ledger, AmountFor(u))
  }

  ghost predicate BuyerConserved(db: Db, u: UserId) {
    Sum(db.ledger, TopUpFor(u)) == Balance(db, u) + Sum(db.orders, SpentBy(u))
  }

  ghost predicate RefundedOnce(db: Db, o: OrderId) {
    Sum(db.ledger, RefundsOf(o)) == if o < |db.orders| && db.orders[o].status == Dikembalikan then 1 else 0
  }

  /** A refund entry pays back exactly what its order cost, to the buyer who paid. */
  ghost predicate RefundsExact(db: Db) {
    forall i :: 0 <= i < |db.ledger| && db.ledger[i].kind.RefundEntry? ==>
      var o := db.ledger[i].kind.order;
      o < |db.orders| && db.ledger[i].amount == db.orders[o].total && db.ledger[i].user == db.orders[o].buyer
  }

  ghost predicate Money(db: Db) {
    && (forall u :: BalanceIsLedger(db, u))
    && (forall u :: BuyerConserved(db, u))
    && (forall o :: RefundedOnce(db, o))
    && RefundsExact(db)
    && Sum(db.ledger, AnyTopUp()) == MapSum(db.wallets) + Sum(db.orders, Spent())
  }

  // ----- the three effects a transaction can have on money -----

  /** Ledger untouched, orders only moved between statuses other than returned. */
  ghost predicate MoneyUntouched(db: Db, db': Db) {
    && db'.ledger == db.ledger
    && (forall u :: Balance(db', u) == Balance(db, u))
    && MapSum(db'.wallets) == MapSum(db.wallets)
    && |db'.orders| == |db.orders|
    && forall i :: 0 <= i < |db.orders| ==>
         && db'.orders[i].buyer == db.orders[i].buyer
         && db'.orders[i].total == db.orders[i].total
         && (db'.orders[i].status == Dikembalikan) == (db.orders[i].status == Dikembalikan)
  }

  lemma UntouchedKeepsMoney(db: Db, db': Db)
    requires Money(db) && MoneyUntouched(db, db')
    ensures Money(db')
  {
    forall u ensures BalanceIsLedger(db', u) && BuyerConserved(db', u) {
      assert BalanceIsLedger(db, u) && BuyerConserved(db, u);
      SumSameRows(db.orders, db'.orders, SpentBy(u));
    }
    forall o ensures RefundedOnce(db', o) {
      assert RefundedOnce(db, o);
    }
    SumSameRows(db.orders, db'.orders, Spent());
  }

  lemma TopUpKeepsMoney(db: Db, user: UserId, amount: nat)
    requires Money(db)
    ensures Money(TopUp(db, user, amount))
  {
    var db' := TopUp(db, user, amount);
    var entry := Entry(user, amount, TopUpEntry);
    forall u ensures BalanceIsLedger(db', u) && BuyerConserved(db', u) {
      assert BalanceIsLedger(db, u) && BuyerConserved(db, u);
      SumAppend(db.ledger, entry, AmountFor(u));
      SumAppend(db.ledger, entry, TopUpFor(u));
    }
    forall o ensures RefundedOnce(db', o) {
      assert RefundedOnce(db, o);
      SumAppend(db.ledger, entry, RefundsOf(o));
    }
    SumAppend(db.ledger, entry, AnyTopUp());
    MapSumPut(db.wallets, user, Balance(db, user) + amount);
  }

  lemma PaymentKeepsMoney(db: Db, db': Db, order: Order)
    requires Money(db)
    requires order.status == SedangDikemas && Balance(db, order.buyer) >= order.total
    requires db'.orders == db.orders + [order]
    requires db'.wallets == db.wallets[order.buyer := Balance(db, order.buyer) - order.total]
    requires db'.ledger == db.ledger + [Entry(order.buyer, 0 - order.total, PaymentEntry)]
    ensures Money(db')
  {
    var entry := Entry(order.buyer, 0 - order.total, PaymentEntry);
    forall u ensures BalanceIsLedger(db', u) && BuyerConserved(db', u) {
      assert BalanceIsLedger(db, u) && BuyerConserved(db, u);
      SumAppend(db.ledger, entry, AmountFor(u));
      SumAppend(db.ledger, entry, TopUpFor(u));
      SumAppend(db.orders, order, SpentBy(u));
    }
    forall o ensures RefundedOnce(db', o) {
      assert RefundedOnce(db, o);
      SumAppend(db.ledger, entry, RefundsOf(o));
    }
    SumAppend(db.ledger, entry, AnyTopUp());
    SumAppend(db.orders, order, Spent());
    MapSumPut(db.wallets, order.buyer, Balance(db, order.buyer) - order.total);
  }

  lemma RefundKeepsMoney(db: Db, db': Db, o: OrderId)
    requires Money(db) && o < |db.orders| && db.orders[o].status != Dikembalikan
    requires db'.orders == db.orders[o := Advance(db.orders[o], Dikembalikan)]
    requires db'.wallets == db.wallets[db.orders[o].buyer := Balance(db, db.orders[o].buyer) + db.orders[o].total]
    requires db'.ledger == db.ledger + [Entry(db.orders[o].buyer, db.orders[o].total, RefundEntry(o))]
    ensures Money(db')
  {
    var order := db.orders[o];
    var entry := Entry(order.buyer, order.total, RefundEntry(o));
    forall u ensures BalanceIsLedger(db', u) && BuyerConserved(db', u) {
      assert BalanceIsLedger(db, u) && BuyerConserved(db, u);
      SumAppend(db.ledger, entry, AmountFor(u));
      SumAppend(db.ledger, entry, TopUpFor(u));
      SumUpdate(db.orders, o, Advance(order, Dikembalikan), SpentBy(u));
    }
    forall x ensures RefundedOnce(db', x) {
      assert RefundedOnce(db, x);
      SumAppend(db.ledger, entry, RefundsOf(x));
    }
    SumAppend(db.ledger, entry, AnyTopUp());
    SumUpdate(db.orders, o, Advance(order, Dikembalikan), Spent());
    MapSumPut(db.wallets, order.buyer, Balance(db, order.buyer) + order.total);
  }

  lemma WalletOpsKeepMoney(db: Db, op: Op)
    requires Money(db) && WalletOp(op)
    ensures Money(Step(db, op))
  {
    match op
    case DoTopUp(user, amount) => TopUpKeepsMoney(db, user, amount);
    case DoOpenWallet(user) =>
      MapSumPut(db.wallets, user, Balance(db, user));
      UntouchedKeepsMoney(db, OpenWallet(db, user));
  }

  lemma CheckoutKeepsMoney(db: Db, buyer: UserId, req: Request)
    requires Money(db) && Checkout(db, buyer, req).Ok?
    ensures Money(Checkout(db, buyer, req).value)
  {
    hide Money, Reserve, Sorted, Joined, Priced, Discounted, Subtotal, CalculateTotals, UseVoucher;
    var db' := Checkout(db, buyer, req).value;
    PaymentKeepsMoney(db, db', db'.orders[|db.orders|]);
  }

  lemma ReturnKeepsMoney(db: Db, o: OrderId)
    requires Money(db) && ReturnOrder(db, o).Ok?
    ensures Money(ReturnOrder(db, o).value)
  {
    RefundKeepsMoney(db, ReturnOrder(db, o).value, o);
  }

  lemma OrderMovesKeepMoney(db: Db, op: Op)
    requires Money(db) && Attempt(db, op).Ok?
    requires op.DoProcessOrder? || op.DoTakeJob? || op.DoCompleteJob?
    ensures Money(Attempt(db, op).value)
  {
    hide Checkout, ReturnOrder, Consume, SetStock, AddItem, SetQuantity, Money;
    UntouchedKeepsMoney(db, Attempt(db, op).value);
  }

  lemma StepKeepsMoney(db: Db, op: Op)
    requires Money(db)
    ensures Money(Step(db, op))
  {
    hide Checkout, ReturnOrder, Consume, SetStock, AddItem, SetQuantity, ProcessOrder, TakeJob, CompleteJob;
    if Attempt(db, op).Ok? {
      match op
      case DoOpenWallet(_) => WalletOpsKeepMoney(db, op);
      case DoTopUp(_, _) => WalletOpsKeepMoney(db, op);
      case DoCheckout(buyer, req) => CheckoutKeepsMoney(db, buyer, req);
      case DoReturnOrder(o) => ReturnKeepsMoney(db, o);
      case DoProcessOrder(_, _) => OrderMovesKeepMoney(db, op);
      case DoTakeJob(_, _) => OrderMovesKeepMoney(db, op);
      case DoCompleteJob(_, _) => OrderMovesKeepMoney(db, op);
      case DoSetStock(seller, p, units) =>
        SetStockFrame(db, seller, p, units);
        UntouchedKeepsMoney(db, Step(db, op));
      case DoConsume(e) =>
        ConsumeFrame(db, e);
        UntouchedKeepsMoney(db, Step(db, op));
      case DoCreateVoucher(_) =>
        CodeFrame(db, op);
        UntouchedKeepsMoney(db, Step(db, op));
      case DoCreatePromo(_) =>
        CodeFrame(db, op);
        UntouchedKeepsMoney(db, Step(db, op));
      case _ =>
        CartFrame(db, op);
        UntouchedKeepsMoney(db, Step(db, op));
    }
  }

  lemma EmptyHasMoney()
    ensures Money(EMPTY)
  {
  }

  /** Money is conserved in every reachable state, whatever the run: each balance equals the sum of
      its ledger entries and is never negative; each buyer's top-ups equal the balance plus what was
      paid for orders not returned, and so do the totals; an order has one refund entry, for its
      whole total to its buyer, exactly when it was returned. */
  lemma {:induction false} MoneyConserved(ops: seq<Op>)
    ensures Money(Run(EMPTY, ops))
  {
    if ops == [] {
      EmptyHasMoney();
    } else {
      MoneyConserved(ops[..|ops| - 1]);
      StepKeepsMoney(Run(EMPTY, ops[..|ops| - 1]), ops[|ops| - 1]);
    }
  }
}

/** Overdue processing: one pass over a list read earlier, and any interleaving of many passes. */
module Overdue {
  import opened Prelude
  import opened Contracts
  import opened Pricing
  import opened Commerce
  import opened CommerceReplica
  import opened CommerceMoney

  const HOUR_MS := 3600000

  function SlaHours(d: Delivery): nat {
    match d
    case Instant => 2
    case NextDay => 24
    case Regular => 48
  }

  predicate IsOverdue(order: Order, now: int) {
    !Final(order.status) && order.createdAt < now - SlaHours(order.delivery) * HOUR_MS
  }

  function OverdueList(orders: seq<Order>, now: int): seq<OrderId> {
    if orders == [] then []
    else
      var n := |orders| - 1;
      OverdueList(orders[..n], now) + if IsOverdue(orders[n], now) then [n] else []
  }

  /** Overdue are the orders neither completed nor returned that were placed more than two hours, a day or
      two days ago, by delivery; each is listed once. */
  lemma {:induction false} OverdueListIs(orders: seq<Order>, now: int, o: OrderId)
    ensures o in OverdueList(orders, now) <==>
      && o < |orders| && orders[o].status != PesananSelesai && orders[o].status != Dikembalikan
      && (orders[o].delivery == Instant ==> orders[o].createdAt < now - 7_200_000)
      && (orders[o].delivery == NextDay ==> orders[o].createdAt < now - 86_400_000)
      && (orders[o].delivery == Regular ==> orders[o].createdAt < now - 172_800_000)
    ensures
      var list := OverdueList(orders, now);
      forall i, j :: 0 <= i < j < |list| ==> list[i] != list[j]
  {
    if orders != [] {
      var n := |orders| - 1;
      OverdueListIs(orders[..n], now, o);
      var init := OverdueList(orders[..n], now);
      forall i | 0 <= i < |init| ensures init[i] < n {
        OverdueListIs(orders[..n], now, init[i]);
      }
    }
  }

  datatype Report = Report(order: OrderId, buyer: UserId, refund: int, itemsRestored: nat)

  function ItemsRestored(lines: seq<Line>): nat {
    if lines == [] then 0
    else
      var last := lines[|lines| - 1];
      ItemsRestored(lines[..|lines| - 1]) + if last.product.Some? then last.quantity else 0
  }

  function ReportOf(db: Db, o: OrderId): Report
    requires o < |db.orders|
  {
    Report(o, db.orders[o].buyer, db.orders[o].total, ItemsRestored(db.orders[o].lines))
  }

  // ----- one pass -----

  datatype Pass = Pass(db: Db, reports: seq<Report>)

  /** One pass over `list`; the transaction of an order in `failing` is rolled back and logged. */
  function Process(db: Db, list: seq<OrderId>, failing: set<OrderId>): Pass {
    if list == [] then Pass(db, [])
    else
      var before := Process(db, list[..|list| - 1], failing);
      var o := list[|list| - 1];
      if o in failing then before
      else
        var r := ReturnOrder(before.db, o);
        if r.Err? then before
        else Pass(r.value, before.reports + [ReportOf(before.db, o)])
  }

  lemma {:induction false} PassEffect(db: Db, list: seq<OrderId>, failing: set<OrderId>, o: OrderId)
    requires o < |db.orders|
    ensures
      var after := Process(db, list, failing).db.orders;
      && |after| == |db.orders|
      && after[o] == if o in list && o !in failing && !Final(db.orders[o].status)
                     then Advance(db.orders[o], Dikembalikan) else db.orders[o]
  {
    if list != [] {
      var init, last := list[..|list| - 1], list[|list| - 1];
      PassEffect(db, init, failing, o);
      assert list == init + [last];
      if ReturnOrder(Process(db, init, failing).db, last).Ok? {
        ReturnFrameOrders(Process(db, init, failing).db, last);
      }
    }
  }

  lemma ReturnFrameOrders(db: Db, o: OrderId)
    requires ReturnOrder(db, o).Ok?
    ensures o < |db.orders| && !Final(db.orders[o].status)
    ensures ReturnOrder(db, o).value.orders == db.orders[o := Advance(db.orders[o], Dikembalikan)]
  {
  }

  /** After a pass, what is still overdue at the same effective time is exactly what its failed
      transactions left; with no failure an immediate rerun finds nothing. */
  lemma RerunFindsOnlyFailures(db: Db, now: int, failing: set<OrderId>, o: OrderId)
    ensures
      var after := Process(db, OverdueList(db.orders, now), failing).db;
      && (o in OverdueList(after.orders, now) <==> o in OverdueList(db.orders, now) && o in failing)
      && (failing == {} ==> OverdueList(after.orders, now) == [])
  {
    var list := OverdueList(db.orders, now);
    var after := Process(db, list, failing).db;
    OrdersCounted(db, list, failing);
    var left := OverdueList(after.orders, now);
    assert left != [] ==> left[0] in left;
    forall x: OrderId ensures x in OverdueList(after.orders, now) <==> x in list && x in failing {
      OverdueListIs(after.orders, now, x);
      OverdueListIs(db.orders, now, x);
      if x < |db.orders| {
        PassEffect(db, list, failing, x);
      }
    }
  }

  lemma {:induction false} OrdersCounted(db: Db, list: seq<OrderId>, failing: set<OrderId>)
    ensures |Process(db, list, failing).db.orders| == |db.orders|
  {
    if list != [] {
      OrdersCounted(db, list[..|list| - 1], failing);
    }
  }

  function UnitsPutBack(lines: seq<Line>): int { Sum(lines, (l: Line) => if l.product.Some? then l.quantity else 0) }

  lemma {:induction false} ItemsRestoredIs(lines: seq<Line>)
    ensures ItemsRestored(lines) == UnitsPutBack(lines)
  {
    if lines != [] {
      ItemsRestoredIs(lines[..|lines| - 1]);
    }
  }

  /** A pass reports exactly the orders of its list that it could return, once each, each with its buyer, its
      total and its units. */
  lemma {:induction false} PassReports(db: Db, list: seq<OrderId>, failing: set<OrderId>, report: Report)
    requires forall i, j :: 0 <= i < j < |list| ==> list[i] != list[j]
    ensures
      var reports := Process(db, list, failing).reports;
      && (report in reports <==>
            && report.order in list && report.order !in failing && report.order < |db.orders|
            && var order := db.orders[report.order];
            && order.status != PesananSelesai && order.status != Dikembalikan
            && report.buyer == order.buyer && report.refund == order.total
            && report.itemsRestored == UnitsPutBack(order.lines))
      && (forall i, j :: 0 <= i < j < |reports| ==> reports[i].order != reports[j].order)
  {
    if list != [] {
      var init, o := list[..|list| - 1], list[|list| - 1];
      assert list == init + [o];
      forall x ensures x in Process(db, init, failing).reports ==> x.order != o {
        PassReports(db, init, failing, x);
      }
      PassReports(db, init, failing, report);
      var mid := Process(db, init, failing).db;
      OrdersCounted(db, init, failing);
      if o < |db.orders| {
        PassEffect(db, init, failing, o);
        ItemsRestoredIs(db.orders[o].lines);
      }
      SkippedIff(mid, o);
      hide ReturnOrder, ItemsRestored, UnitsPutBack;
    }
  }

  lemma SkippedIff(db: Db, o: OrderId)
    ensures ReturnOrder(db, o).Ok? <==> o < |db.orders| && db.orders[o].status != PesananSelesai && db.orders[o].status != Dikembalikan
  {
  }

  // ----- any interleaving of passes and other transactions -----

  /** The refunds of a ledger, as (order, buyer, amount). */
  function Refunds(ledger: seq<Entry>): seq<(OrderId, UserId, int)> {
    if ledger == [] then []
    else
      var last := ledger[|ledger| - 1];
      Refunds(ledger[..|ledger| - 1])
        + if last.kind.RefundEntry? then [(last.kind.order, last.user, last.amount)] else []
  }

  /** What one step reports, if it is the return transaction of some pass and commits. */
  function StepReport(db: Db, op: Op): seq<(OrderId, UserId, int)> {
    if op.DoReturnOrder? && op.order < |db.orders| && ReturnOrder(db, op.order).Ok?
    then [(op.order, db.orders[op.order].buyer, ReportOf(db, op.order).refund)]
    else []
  }

  /** What all passes of a run report, in the order their transactions committed. */
  function Reported(db: Db, ops: seq<Op>): seq<(OrderId, UserId, int)> {
    if ops == [] then []
    else Reported(db, ops[..|ops| - 1]) + StepReport(Run(db, ops[..|ops| - 1]), ops[|ops| - 1])
  }

  lemma RefundsAppend(ledger: seq<Entry>, e: Entry)
    ensures Refunds(ledger + [e]) ==
      Refunds(ledger) + if e.kind.RefundEntry? then [(e.kind.order, e.user, e.amount)] else []
  {
    assert (ledger + [e])[..|ledger|] == ledger;
  }

  lemma LedgerStep(db: Db, op: Op)
    requires Attempt(db, op).Ok?
    ensures
      var ledger := Attempt(db, op).value.ledger;
      || ledger == db.ledger
      || (exists e: Entry :: !e.kind.RefundEntry? && ledger == db.ledger + [e])
      || op.DoReturnOrder?
    ensures op.DoReturnOrder? ==>
      && op.order < |db.orders|
      && Attempt(db, op).value.ledger
           == db.ledger + [Entry(db.orders[op.order].buyer, db.orders[op.order].total, RefundEntry(op.order))]
  {
    hide Checkout, ReturnOrder, Consume, SetStock, AddItem, SetQuantity, ProcessOrder, TakeJob, CompleteJob;
    match op
    case DoCheckout(buyer, req) => CheckoutLedger(db, buyer, req);
    case DoReturnOrder(o) => ReturnLedger(db, o);
    case DoTopUp(user, amount) =>
      assert TopUp(db, user, amount).ledger == db.ledger + [Entry(user, amount, TopUpEntry)];
    case DoOpenWallet(_) =>
    case DoSetStock(seller, p, units) => SetStockFrame(db, seller, p, units);
    case DoConsume(e) => ConsumeFrame(db, e);
    case _ =>
      if JobOp(op) {
        JobFrame(db, op);
      } else if CartOp(op) {
        CartFrame(db, op);
      } else {
        CodeFrame(db, op);
      }
  }

  lemma CheckoutLedger(db: Db, buyer: UserId, req: Request)
    requires Checkout(db, buyer, req).Ok?
    ensures exists e: Entry :: !e.kind.RefundEntry? && Checkout(db, buyer, req).value.ledger == db.ledger + [e]
  {
    hide Reserve, Sorted, Joined, Priced, Discounted, Subtotal, CalculateTotals, UseVoucher;
    var d := Checkout(db, buyer, req).value;
    var e := Entry(buyer, 0 - d.orders[|db.orders|].total, PaymentEntry);
    assert d.ledger == db.ledger + [e];
  }

  lemma ReturnLedger(db: Db, o: OrderId)
    requires ReturnOrder(db, o).Ok?
    ensures o < |db.orders|
    ensures ReturnOrder(db, o).value.ledger
      == db.ledger + [Entry(db.orders[o].buyer, db.orders[o].total, RefundEntry(o))]
  {
  }

  lemma StepCreditsReport(db: Db, op: Op)
    ensures Refunds(Step(db, op).ledger) == Refunds(db.ledger) + StepReport(db, op)
  {
    hide Attempt, Refunds, ReturnOrder;
    if op.DoReturnOrder? {
      AttemptReturn(db, op.order);
    }
    if Attempt(db, op).Ok? {
      LedgerStep(db, op);
      if op.DoReturnOrder? {
        RefundsAppend(db.ledger, Entry(db.orders[op.order].buyer, db.orders[op.order].total, RefundEntry(op.order)));
      } else if Attempt(db, op).value.ledger != db.ledger {
        var e: Entry :| !e.kind.RefundEntry? && Attempt(db, op).value.ledger == db.ledger + [e];
        RefundsAppend(db.ledger, e);
      }
    }
  }

  lemma AttemptReturn(db: Db, o: OrderId)
    ensures Attempt(db, DoReturnOrder(o)) == ReturnOrder(db, o)
  {
    hide ReturnOrder, Checkout, Consume, SetStock, AddItem, SetQuantity;
  }

  /** Over any run - any number of passes, concurrent or repeated, interleaved with anything - the
      refunds credited to wallets are, one for one and in order, the refunds the passes report. */
  lemma {:induction false} ReportedRefundsAreCredits(db: Db, ops: seq<Op>)
    ensures Refunds(Run(db, ops).ledger) == Refunds(db.ledger) + Reported(db, ops)
  {
    hide Step, StepReport, Refunds;
    if ops != [] {
      ReportedRefundsAreCredits(db, ops[..|ops| - 1]);
      StepCreditsReport(Run(db, ops[..|ops| - 1]), ops[|ops| - 1]);
    }
  }

  lemma JobOpsSpareFinal(db: Db, op: Op, o: OrderId)
    requires o < |db.orders| && JobOp(op) && Attempt(db, op).Ok?
    ensures o < |Attempt(db, op).value.orders|
    ensures Final(db.orders[o].status) ==> Attempt(db, op).value.orders[o] == db.orders[o]
  {
    hide Checkout, ReturnOrder, Consume, SetStock, AddItem, SetQuantity;
  }

  lemma FinalStep(db: Db, op: Op, o: OrderId)
    requires o < |db.orders| && Attempt(db, op).Ok?
    ensures o < |Attempt(db, op).value.orders|
    ensures Final(db.orders[o].status) ==> Attempt(db, op).value.orders[o] == db.orders[o]
  {
    hide Checkout, ReturnOrder, Consume, SetStock, AddItem, SetQuantity, ProcessOrder, TakeJob, CompleteJob;
    match op
    case DoCheckout(buyer, req) => CheckoutOrders(db, buyer, req);
    case DoReturnOrder(x) => ReturnFrameOrders(db, x);
    case DoSetStock(seller, p, units) => SetStockFrame(db, seller, p, units);
    case DoConsume(e) => ConsumeFrame(db, e);
    case _ =>
      if CartOp(op) {
        CartFrame(db, op);
      } else if CodeOp(op) {
        CodeFrame(db, op);
      } else if WalletOp(op) {
        WalletFrame(db, op);
      } else {
        JobOpsSpareFinal(db, op, o);
      }
  }

  lemma CheckoutOrders(db: Db, buyer: UserId, req: Request)
    requires Checkout(db, buyer, req).Ok?
    ensures |Checkout(db, buyer, req).value.orders| == |db.orders| + 1
    ensures Checkout(db, buyer, req).value.orders[..|db.orders|] == db.orders
  {
    hide Reserve, Sorted, Joined, Priced, Discounted, Subtotal, CalculateTotals, UseVoucher;
  }

  /** A completed or returned order never changes again: no later pass can refund a completed order
      or return an order twice. */
  lemma {:induction false} FinalForever(db: Db, ops: seq<Op>, o: OrderId)
    requires o < |db.orders|
    ensures o < |Run(db, ops).orders|
    ensures Final(db.orders[o].status) ==> Run(db, ops).orders[o] == db.orders[o]
  {
    if ops != [] {
      var mid, op := Run(db, ops[..|ops| - 1]), ops[|ops| - 1];
      FinalForever(db, ops[..|ops| - 1], o);
      if Attempt(mid, op).Ok? {
        hide Attempt;
        FinalStep(mid, op, o);
      }
    }
  }

  /** However a pass is interleaved, an order whose return transaction ran (at position `k`) is final
      from then on, so it is on no later list, whatever the effective time. */
  lemma ProcessedIsNeverListedAgain(db: Db, ops: seq<Op>, k: nat, o: OrderId, now: int)
    requires k < |ops| && ops[k] == DoReturnOrder(o) && o < |Run(db, ops[..k]).orders|
    ensures o !in OverdueList(Run(db, ops).orders, now)
    ensures var d := Run(db, ops[..k + 1]); o < |d.orders| && Final(d.orders[o].status)
  {
    assert ops[..k + 1][..k] == ops[..k] && ops[..k + 1][k] == ops[k];
    var mid := Run(db, ops[..k + 1]);
    assert o < |mid.orders| && Final(mid.orders[o].status);
    RunSplit(db, ops, k + 1);
    FinalForever(mid, ops[k + 1..], o);
    OverdueListIs(Run(db, ops).orders, now, o);
  }

  lemma {:induction false} RunSplit(db: Db, ops: seq<Op>, k: nat)
    requires k <= |ops|
    ensures Run(db, ops) == Run(Run(db, ops[..k]), ops[k..])
  {
    if k == |ops| {
      assert ops[..k] == ops && ops[k..] == [];
    } else {
      var init := ops[..|ops| - 1];
      RunSplit(db, init, k);
      assert init[..k] == ops[..k] && ops[k..][..|ops| - k - 1] == init[k..];
      assert ops[k..][|ops| - k - 1] == ops[|ops| - 1];
    }
  }

  function RefundCount(refunds: seq<(OrderId, UserId, int)>, o: OrderId): nat {
    if refunds == [] then 0
    else RefundCount(refunds[..|refunds| - 1], o) + if refunds[|refunds| - 1].0 == o then 1 else 0
  }

  lemma {:induction false} RefundCountIsSum(ledger: seq<Entry>, o: OrderId)
    ensures RefundCount(Refunds(ledger), o) == Sum(ledger, RefundsOf(o))
  {
    if ledger != [] {
      var init, last := Refunds(ledger[..|ledger| - 1]), ledger[|ledger| - 1];
      RefundCountIsSum(ledger[..|ledger| - 1], o);
      if last.kind.RefundEntry? {
        var x := (last.kind.order, last.user, last.amount);
        assert (init + [x])[..|init|] == init;
      } else {
        assert init + [] == init;
      }
    }
  }

  /** Exactly once: over any run from the start, the passes together report an order once if it ends
      returned and never otherwise. */
  lemma ReturnedIffReportedOnce(ops: seq<Op>, o: OrderId)
    ensures
      var d := Run(EMPTY, ops);
      RefundCount(Reported(EMPTY, ops), o) == if o < |d.orders| && d.orders[o].status == Dikembalikan then 1 else 0
  {
    MoneyConserved(ops);
    ReportedRefundsAreCredits(EMPTY, ops);
    assert Refunds(EMPTY.ledger) == [];
    assert Refunds(Run(EMPTY, ops).ledger) == Reported(EMPTY, ops);
    RefundCountIsSum(Run(EMPTY, ops).ledger, o);
    assert RefundedOnce(Run(EMPTY, ops), o);
  }

  // ----- the simulated clock -----

  const MAX_SIMULATED_SECONDS := 240 * 3600

  /** An advance adds up, zero resets, and the total is capped. */
  function Advanced(offset: int, hours: int): int {
    Min(if hours == 0 then 0 else offset + hours * 3600, MAX_SIMULATED_SECONDS)
  }

  function OffsetAfter(advances: seq<nat>): int {
    if advances == [] then 0 else Advanced(OffsetAfter(advances[..|advances| - 1]), advances[|advances| - 1])
  }

  /** Until it is reset the simulated clock never runs back and never passes ten days, so an order
      once overdue stays overdue until it is completed or returned. */
  lemma {:induction false} OverdueStaysOverdue(advances: seq<nat>, k: nat, order: Order, now: int, later: int)
    requires forall i :: 0 <= i < |advances| ==> advances[i] > 0
    requires k <= |advances| && now <= later
    ensures 0 <= OffsetAfter(advances[..k]) <= OffsetAfter(advances) <= MAX_SIMULATED_SECONDS
    ensures IsOverdue(order, now + OffsetAfter(advances[..k]) * 1000) ==>
      IsOverdue(order, later + OffsetAfter(advances) * 1000)
  {
    if k == |advances| {
      assert advances[..k] == advances;
      if advances != [] {
        OverdueStaysOverdue(advances[..|advances| - 1], |advances| - 1, order, now, later);
        assert advances[..|advances| - 1][..|advances| - 1] == advances[..|advances| - 1];
      }
    } else {
      var init := advances[..|advances| - 1];
      OverdueStaysOverdue(init, k, order, now, later);
      assert init[..k] == advances[..k];
    }
  }

  class SystemTime {
    var offsetSeconds: int

    constructor ()
      ensures offsetSeconds == 0
    {
      offsetSeconds := 0;
    }

    method SimulateTime(hours: int) returns (newOffset: int)
      modifies this
      ensures offsetSeconds == newOffset == Advanced(old(offsetSeconds), hours)
      ensures hours == 0 ==> newOffset == 0
      ensures hours != 0 && old(offsetSeconds) + hours * 3600 <= 864_000 ==> newOffset == old(offsetSeconds) + hours * 3600
      ensures hours != 0 && old(offsetSeconds) + hours * 3600 > 864_000 ==> newOffset == 864_000
    {
      newOffset := offsetSeconds;
      if hours == 0 {
        newOffset := 0;
      } else {
        newOffset := newOffset + hours * 3600;
      }
      if newOffset > MAX_SIMULATED_SECONDS {
        newOffset := MAX_SIMULATED_SECONDS;
      }
      offsetSeconds := newOffset;
    }
  }
}

/** Checkout against a one-shot specification, its preview, and voucher usage. */
module CommerceCheckout {
  import opened Prelude
  import opened Contracts
  import opened Pricing
  import opened Commerce
  import opened CommerceReplica
  import opened CommerceOrders

  // ----- sorting -----

  lemma {:induction false} InsertKeeps(items: seq<CartItem>, item: CartItem)
    requires forall i, j :: 0 <= i < j < |items| ==> items[i].product < items[j].product
    requires forall i :: 0 <= i < |items| ==> items[i].product != item.product
    ensures |Insert(items, item)| == |items| + 1
    ensures forall x :: x in Insert(items, item) <==> x in items || x == item
    ensures forall i, j :: 0 <= i < j < |items| + 1 ==> Insert(items, item)[i].product < Insert(items, item)[j].product
  {
    if items != [] && items[|items| - 1].product > item.product {
      var init, last := items[..|items| - 1], items[|items| - 1];
      InsertKeeps(init, item);
      assert items == init + [last];
      var r := Insert(init, item);
      forall i | 0 <= i < |r| ensures r[i].product < last.product {
        assert r[i] in init || r[i] == item;
      }
    }
  }

  /** The sorted items are the same items, in strictly increasing product order. */
  lemma {:induction false} SortedKeeps(items: seq<CartItem>)
    requires Distinct(items)
    ensures |Sorted(items)| == |items|
    ensures forall x :: x in Sorted(items) <==> x in items
    ensures forall i, j :: 0 <= i < j < |items| ==> Sorted(items)[i].product < Sorted(items)[j].product
    ensures Distinct(Sorted(items))
  {
    hide Insert;
    if items != [] {
      var init, last := items[..|items| - 1], items[|items| - 1];
      assert items == init + [last];
      SortedKeeps(init);
      forall i | 0 <= i < |init| ensures Sorted(init)[i].product != last.product {
        assert Sorted(init)[i] in init;
      }
      InsertKeeps(Sorted(init), last);
    }
  }

  // ----- the decrement loop is pointwise subtraction -----

  predicate Enough(inventory: map<ProductId, Stock>, item: CartItem) {
    item.product in inventory && inventory[item.product].units >= item.quantity
  }

  function Taken1(stock: Stock, quantity: nat): Stock { Stock(stock.units - quantity, stock.version + 1) }

  /** Every ordered product loses its ordered quantity and gains one version; nothing else moves. */
  ghost predicate PointwiseTaken(before: map<ProductId, Stock>, after: map<ProductId, Stock>, items: seq<CartItem>) {
    && after.Keys == before.Keys
    && (forall x :: x in items ==> x.product in before && after[x.product] == Taken1(before[x.product], x.quantity))
    && (forall p :: p in before && (forall x :: x in items ==> x.product != p) ==> after[p] == before[p])
  }

  function Announcements(inventory: map<ProductId, Stock>, items: seq<CartItem>): seq<CommerceEvent>
    requires forall x :: x in items ==> x.product in inventory
  {
    seq(|items|, i requires 0 <= i < |items| =>
      var p := items[i].product; InventoryChanged(p, inventory[p].units, inventory[p].version))
  }

  ghost predicate AllEnough(inventory: map<ProductId, Stock>, items: seq<CartItem>) {
    forall x :: x in items ==> Enough(inventory, x)
  }

  lemma TakeOneMore(
    before: map<ProductId, Stock>, mid: map<ProductId, Stock>, items: seq<CartItem>, last: CartItem)
    requires PointwiseTaken(before, mid, items)
    requires last.product in before && forall x :: x in items ==> x.product != last.product
    ensures mid[last.product] == before[last.product]
    ensures PointwiseTaken(before, mid[last.product := Taken1(mid[last.product], last.quantity)], items + [last])
  {
    var all := items + [last];
    assert forall x :: x in all <==> x in items || x == last;
    assert last in all;
  }

  lemma AnnounceOneMore(
    mid: map<ProductId, Stock>, after: map<ProductId, Stock>, items: seq<CartItem>, last: CartItem)
    requires forall x :: x in items ==> x.product in mid && x.product in after && after[x.product] == mid[x.product]
    requires last.product in after
    ensures forall x :: x in items + [last] ==> x.product in after
    ensures Announcements(after, items + [last])
      == Announcements(mid, items)
         + [InventoryChanged(last.product, after[last.product].units, after[last.product].version)]
  {
  }

  lemma ReserveOneMore(shelf: Shelf, before: Shelf, init: seq<CartItem>, last: CartItem)
    requires forall x :: x in init ==> x.product != last.product
    requires PointwiseTaken(shelf.inventory, before.inventory, init)
    requires before.outbox == shelf.outbox + Announcements(before.inventory, init)
    requires Enough(before.inventory, last)
    ensures
      var r := Put(before, last.product, before.inventory[last.product].units - last.quantity);
      && PointwiseTaken(shelf.inventory, r.inventory, init + [last])
      && r.outbox == shelf.outbox + Announcements(r.inventory, init + [last])
  {
    var r := Put(before, last.product, before.inventory[last.product].units - last.quantity);
    TakeOneMore(shelf.inventory, before.inventory, init, last);
    AnnounceOneMore(before.inventory, r.inventory, init, last);
    hide PointwiseTaken;
    assert r.inventory == before.inventory[last.product := Taken1(before.inventory[last.product], last.quantity)];
  }

  lemma EnoughUntouched(
    before: map<ProductId, Stock>, mid: map<ProductId, Stock>, init: seq<CartItem>, last: CartItem)
    requires PointwiseTaken(before, mid, init)
    requires forall x :: x in init ==> x.product != last.product
    ensures Enough(mid, last) <==> Enough(before, last)
  {
  }

  lemma EnoughSplit(inventory: map<ProductId, Stock>, init: seq<CartItem>, last: CartItem)
    ensures AllEnough(inventory, init + [last]) <==> AllEnough(inventory, init) && Enough(inventory, last)
  {
    assert forall x :: x in init + [last] <==> x in init || x == last;
  }

  ghost predicate ReservedPointwise(shelf: Shelf, items: seq<CartItem>) {
    var r := Reserve(shelf, items);
    && (r.Some? <==> AllEnough(shelf.inventory, items))
    && (r.Some? ==>
          && PointwiseTaken(shelf.inventory, r.value.inventory, items)
          && r.value.outbox == shelf.outbox + Announcements(r.value.inventory, items))
  }

  lemma ReserveUnfolds(shelf: Shelf, init: seq<CartItem>, last: CartItem)
    ensures
      var before := Reserve(shelf, init);
      Reserve(shelf, init + [last]) ==
        if before.Some? && Enough(before.value.inventory, last)
        then Some(Put(before.value, last.product, before.value.inventory[last.product].units - last.quantity))
        else None
  {
    assert (init + [last])[..|init|] == init;
  }

  lemma ReserveExtends(shelf: Shelf, init: seq<CartItem>, last: CartItem)
    requires ReservedPointwise(shelf, init)
    requires forall x :: x in init ==> x.product != last.product
    ensures ReservedPointwise(shelf, init + [last])
  {
    hide Reserve, Put, PointwiseTaken, Announcements, AllEnough, Enough;
    EnoughSplit(shelf.inventory, init, last);
    ReserveUnfolds(shelf, init, last);
    if Reserve(shelf, init).Some? {
      var before := Reserve(shelf, init).value;
      EnoughUntouched(shelf.inventory, before.inventory, init, last);
      if Enough(before.inventory, last) {
        ReserveOneMore(shelf, before, init, last);
      }
    }
  }

  /** Over distinct products the loop succeeds iff every product has enough, and then takes each
      quantity once, announcing each new row in loop order. */
  lemma {:induction false} ReserveIsPointwise(shelf: Shelf, items: seq<CartItem>)
    requires Distinct(items)
    ensures ReservedPointwise(shelf, items)
  {
    if items != [] {
      var init, last := items[..|items| - 1], items[|items| - 1];
      assert items == init + [last];
      ReserveIsPointwise(shelf, init);
      hide ReservedPointwise;
      ReserveExtends(shelf, init, last);
    }
  }

  // ----- the one-shot specification -----

  /** Everything a checkout needs, with no order of evaluation. */
  ghost predicate CanCheckout(db: Db, buyer: UserId, req: Request) {
    var items := CartOf(db, buyer).items;
    var lines := Priced(db, items);
    var discount := Discounted(db, req.code, Subtotal(lines), req.now, req.pick);
    && req.addressFound
    && items != []
    && discount.Ok?
    && Balance(db, buyer) >= CalculateTotals(Subtotal(lines), req.delivery, req.fees, AmountOff(discount.value)).total
    && AllEnough(db.inventory, items)
  }

  ghost predicate OneShot(db: Db, d: Db, buyer: UserId, req: Request) {
    var cart := CartOf(db, buyer);
    var lines := Priced(db, cart.items);
    var discount := Discounted(db, req.code, Subtotal(lines), req.now, req.pick);
    && cart.store.Some? && discount.Ok?
    && var totals := CalculateTotals(Subtotal(lines), req.delivery, req.fees, AmountOff(discount.value));
    && PointwiseTaken(db.inventory, d.inventory, cart.items)
    && (forall x :: x in Sorted(cart.items) ==> x.product in d.inventory)
    && d == db.(
         inventory := d.inventory,
         outbox := db.outbox + Announcements(d.inventory, Sorted(cart.items)),
         wallets := db.wallets[buyer := Balance(db, buyer) - totals.total],
         ledger := db.ledger + [Entry(buyer, 0 - totals.total, PaymentEntry)],
         vouchers := UseVoucher(db.vouchers, discount.value),
         orders := db.orders + [NewOrder(buyer, cart.store.value, req, lines, discount.value, totals)],
         carts := db.carts[buyer := Cart(None, [])])
  }

  lemma {:induction false} JoinedAll(db: Db, items: seq<CartItem>)
    requires forall i :: 0 <= i < |items| ==> items[i].product in db.products && items[i].product in db.inventory
    ensures Joined(db, items) == items
  {
    if items != [] {
      JoinedAll(db, items[..|items| - 1]);
    }
  }

  lemma WholeCartJoins(db: Db, buyer: UserId, home: ProductId -> StoreId)
    requires Replica(db, home)
    ensures Joined(db, CartOf(db, buyer).items) == CartOf(db, buyer).items
    ensures Distinct(CartOf(db, buyer).items)
    ensures CartOf(db, buyer).items != [] ==> CartOf(db, buyer).store.Some?
  {
    hide CartsOk;
    CartOfOk(db, buyer, home);
    var items := CartOf(db, buyer).items;
    forall i | 0 <= i < |items| ensures items[i].product in db.products && items[i].product in db.inventory {
      assert items[i].product in db.inventory <==> Live(db, items[i].product);
    }
    JoinedAll(db, items);
  }

  lemma SameItemsTaken(
    before: map<ProductId, Stock>, after: map<ProductId, Stock>, a: seq<CartItem>, b: seq<CartItem>)
    requires forall x :: x in a <==> x in b
    ensures AllEnough(before, a) <==> AllEnough(before, b)
    ensures PointwiseTaken(before, after, a) ==> PointwiseTaken(before, after, b)
    ensures PointwiseTaken(before, after, a) ==> forall x :: x in a ==> x.product in after
  {
    if PointwiseTaken(before, after, a) {
      forall p | p in before && (forall x :: x in b ==> x.product != p) ensures after[p] == before[p] {
        assert forall x :: x in a ==> x in b;
      }
    }
  }

  lemma ReserveCart(shelf: Shelf, items: seq<CartItem>)
    requires Distinct(items)
    ensures Reserve(shelf, Sorted(items)).Some? <==> AllEnough(shelf.inventory, items)
    ensures Reserve(shelf, Sorted(items)).Some? ==>
      var r := Reserve(shelf, Sorted(items)).value;
      && PointwiseTaken(shelf.inventory, r.inventory, items)
      && (forall x :: x in Sorted(items) ==> x.product in r.inventory)
      && r.outbox == shelf.outbox + Announcements(r.inventory, Sorted(items))
  {
    hide Reserve, Sorted, PointwiseTaken, AllEnough, Announcements;
    SortedKeeps(items);
    ReserveIsPointwise(shelf, Sorted(items));
    var r := Reserve(shelf, Sorted(items));
    SameItemsTaken(shelf.inventory, if r.Some? then r.value.inventory else map[], Sorted(items), items);
  }

  lemma CheckoutIff(db: Db, buyer: UserId, req: Request, home: ProductId -> StoreId)
    requires Replica(db, home)
    ensures Checkout(db, buyer, req).Ok? <==> CanCheckout(db, buyer, req)
  {
    hide Replica, Joined, Reserve, Sorted, PointwiseTaken, Announcements, AllEnough, CartOf, Discounted, Subtotal;
    hide CalculateTotals, NewOrder, Placed, Balance, AmountOff, Priced;
    WholeCartJoins(db, buyer, home);
    ReserveCart(ShelfOf(db), CartOf(db, buyer).items);
  }

  lemma CheckoutValue(db: Db, buyer: UserId, req: Request)
    requires Checkout(db, buyer, req).Ok?
    requires Joined(db, CartOf(db, buyer).items) == CartOf(db, buyer).items
    ensures
      var cart := CartOf(db, buyer);
      var lines := Priced(db, cart.items);
      var discount := Discounted(db, req.code, Subtotal(lines), req.now, req.pick);
      var shelf := Reserve(ShelfOf(db), Sorted(cart.items));
      && cart.store.Some? && discount.Ok? && shelf.Some?
      && var totals := CalculateTotals(Subtotal(lines), req.delivery, req.fees, AmountOff(discount.value));
      Checkout(db, buyer, req).value
        == Placed(db, buyer, shelf.value, discount.value,
                  NewOrder(buyer, cart.store.value, req, lines, discount.value, totals))
  {
    hide Joined, Reserve, Sorted, CartOf, Discounted, Subtotal, CalculateTotals, NewOrder, Placed, Priced;
  }

  lemma PlacedIsOneShot(db: Db, buyer: UserId, req: Request, shelf: Shelf)
    requires
      var cart := CartOf(db, buyer);
      && cart.store.Some?
      && Discounted(db, req.code, Subtotal(Priced(db, cart.items)), req.now, req.pick).Ok?
      && PointwiseTaken(db.inventory, shelf.inventory, cart.items)
      && (forall x :: x in Sorted(cart.items) ==> x.product in shelf.inventory)
      && shelf.outbox == db.outbox + Announcements(shelf.inventory, Sorted(cart.items))
    ensures
      var cart := CartOf(db, buyer);
      var lines := Priced(db, cart.items);
      var discount := Discounted(db, req.code, Subtotal(lines), req.now, req.pick).value;
      var totals := CalculateTotals(Subtotal(lines), req.delivery, req.fees, AmountOff(discount));
      OneShot(db, Placed(db, buyer, shelf, discount, NewOrder(buyer, cart.store.value, req, lines, discount, totals)), buyer, req)
  {
    hide CartOf, Priced, Discounted, Subtotal, CalculateTotals, PointwiseTaken, Sorted, Announcements, UseVoucher, Balance;
  }

  /** The guarded step-by-step checkout succeeds exactly when address, cart, discount, balance and
      every item's stock are sufficient, and then it is the one-shot change. */
  lemma CheckoutIsOneShot(db: Db, buyer: UserId, req: Request, home: ProductId -> StoreId)
    requires Replica(db, home)
    ensures Checkout(db, buyer, req).Ok? <==> CanCheckout(db, buyer, req)
    ensures Checkout(db, buyer, req).Ok? ==> OneShot(db, Checkout(db, buyer, req).value, buyer, req)
  {
    hide Replica, Checkout, Joined, Reserve, Sorted, PointwiseTaken, AllEnough, CartOf, Discounted, Subtotal;
    hide CalculateTotals, CanCheckout, UseVoucher, Priced, Announcements, OneShot, Placed, NewOrder;
    CheckoutIff(db, buyer, req, home);
    if Checkout(db, buyer, req).Ok? {
      WholeCartJoins(db, buyer, home);
      CheckoutValue(db, buyer, req);
      ReserveCart(ShelfOf(db), CartOf(db, buyer).items);
      PlacedIsOneShot(db, buyer, req, Reserve(ShelfOf(db), Sorted(CartOf(db, buyer).items)).value);
    }
  }

  // ----- the preview -----

  datatype Summary = Summary(
    lines: seq<Line>, subtotal: nat, discountAmount: nat,
    discountCode: Option<string>, discountType: Option<CodeType>, totals: Totals)

  /** Reads the cart as `OpenCart` leaves it; an empty cart previews as all zeros. */
  function Preview(db: Db, buyer: UserId, req: Request): Result<Summary, Error> {
    var viewed := OpenCart(db, buyer);
    var lines := Priced(viewed, Joined(viewed, viewed.carts[buyer].items));
    if lines == [] then Ok(Summary([], 0, 0, None, None, Totals(0, 0, 0, 0)))
    else
      var discount := Discounted(viewed, req.code, Subtotal(lines), req.now, req.pick);
      if discount.Err? then Err(discount.error)
      else
        var d := discount.value;
        Ok(Summary(lines, Subtotal(lines), AmountOff(d),
                   if d.Some? then Some(d.value.code) else None,
                   if d.None? then None else if d.value.kind.FromVoucher? then Some(VoucherCode) else Some(PromoCode),
                   CalculateTotals(Subtotal(lines), req.delivery, req.fees, AmountOff(d))))
  }

  lemma {:induction false} JoinedReadsRefs(a: Db, b: Db, items: seq<CartItem>)
    requires a.products == b.products && a.inventory == b.inventory
    ensures Joined(a, items) == Joined(b, items)
    ensures Priced(a, items) == Priced(b, items)
  {
    if items != [] {
      JoinedReadsRefs(a, b, items[..|items| - 1]);
    }
  }

  /** What the buyer was shown is what the order charges, on the same state and request. */
  lemma PreviewMatchesCheckout(db: Db, buyer: UserId, req: Request)
    requires Checkout(db, buyer, req).Ok?
    ensures Preview(db, buyer, req).Ok?
    ensures
      var shown := Preview(db, buyer, req).value;
      var order := Checkout(db, buyer, req).value.orders[|db.orders|];
      && shown.lines == order.lines && shown.subtotal == order.subtotal
      && shown.discountAmount == order.discountAmount
      && shown.discountCode == order.discountCode && shown.discountType == order.discountType
      && shown.totals.deliveryFee == order.fee && shown.totals.ppn == order.ppn
      && shown.totals.total == order.total
  {
    hide Reserve, Sorted, ValidateCode, CalculateTotals;
    var viewed := OpenCart(db, buyer);
    assert CartOf(db, buyer).items != [];
    JoinedReadsRefs(db, viewed, CartOf(db, buyer).items);
    JoinedReadsRefs(db, viewed, Joined(db, CartOf(db, buyer).items));
  }


  /** And what the preview refuses, the checkout refuses with the same error. */
  lemma PreviewRefusesAlike(db: Db, buyer: UserId, req: Request)
    requires req.addressFound && CartOf(db, buyer).store.Some? && Preview(db, buyer, req).Err?
    ensures Checkout(db, buyer, req) == Err(Preview(db, buyer, req).error)
  {
    hide Reserve, Sorted, CalculateTotals, Joined, Subtotal;
    JoinedReadsRefs(OpenCart(db, buyer), db, CartOf(db, buyer).items);
    JoinedReadsRefs(OpenCart(db, buyer), db, Joined(db, CartOf(db, buyer).items));
    SameCode(db, OpenCart(db, buyer), req, Subtotal(Priced(db, Joined(db, CartOf(db, buyer).items))));
  }

  lemma SameCode(a: Db, b: Db, req: Request, subtotal: nat)
    requires a.vouchers == b.vouchers && a.promos == b.promos
    ensures Discounted(a, req.code, subtotal, req.now, req.pick) == Discounted(b, req.code, subtotal, req.now, req.pick)
  {
  }

  // ----- vouchers -----

  function UsesOf(code: string): Order -> int {
    (o: Order) => if o.discountType == Some(VoucherCode) && o.discountCode == Some(code) then 1 else 0
  }

  /** Usage left on a voucher plus the orders that used it. */
  function Issued(db: Db, v: nat): int
    requires v < |db.vouchers|
  {
    db.vouchers[v].remaining + Sum(db.orders, UsesOf(db.vouchers[v].code))
  }

  ghost predicate CodesDistinct(vouchers: seq<Voucher>) {
    forall i, j :: 0 <= i < j < |vouchers| ==> vouchers[i].code != vouchers[j].code
  }

  ghost predicate VouchersOk(db: Db) {
    && CodesDistinct(db.vouchers)
    && (forall i :: 0 <= i < |db.vouchers| ==> db.vouchers[i].remaining >= 0)
    && (forall o :: 0 <= o < |db.orders| && db.orders[o].discountType == Some(VoucherCode) ==>
          exists i :: 0 <= i < |db.vouchers| && Some(db.vouchers[i].code) == db.orders[o].discountCode)
  }

  /** Vouchers keep their rows, codes and issued totals; new rows may only be appended. */
  ghost predicate VouchersKept(db: Db, d: Db) {
    && |db.vouchers| <= |d.vouchers|
    && forall i :: 0 <= i < |db.vouchers| ==>
         d.vouchers[i].code == db.vouchers[i].code && Issued(d, i) == Issued(db, i)
  }

  lemma SameOrdersKeepVouchers(db: Db, d: Db)
    requires VouchersOk(db) && d.vouchers == db.vouchers && |d.orders| == |db.orders|
    requires forall o :: 0 <= o < |db.orders| ==>
      d.orders[o].discountType == db.orders[o].discountType && d.orders[o].discountCode == db.orders[o].discountCode
    ensures VouchersOk(d) && VouchersKept(db, d)
  {
    forall i | 0 <= i < |db.vouchers| ensures Issued(d, i) == Issued(db, i) {
      SumSameRows(db.orders, d.orders, UsesOf(db.vouchers[i].code));
    }
  }

  lemma {:induction false} NoUses(orders: seq<Order>, code: string)
    requires forall o :: 0 <= o < |orders| ==> !(orders[o].discountType == Some(VoucherCode) && orders[o].discountCode == Some(code))
    ensures Sum(orders, UsesOf(code)) == 0
  {
    if orders != [] {
      NoUses(orders[..|orders| - 1], code);
    }
  }

  /** A new voucher starts with everything it was created with still to give. */
  lemma CreateVoucherIssues(db: Db, v: Voucher)
    requires VouchersOk(db) && v.remaining >= 0 && CreateVoucher(db, v).Ok?
    ensures
      var d := CreateVoucher(db, v).value;
      VouchersOk(d) && VouchersKept(db, d) && |d.vouchers| == |db.vouchers| + 1 && Issued(d, |db.vouchers|) == v.remaining
  {
    var d := CreateVoucher(db, v).value;
    forall o | 0 <= o < |db.orders| && db.orders[o].discountType == Some(VoucherCode)
      ensures db.orders[o].discountCode != Some(v.code)
      ensures exists i :: 0 <= i < |d.vouchers| && Some(d.vouchers[i].code) == d.orders[o].discountCode
    {
      var i :| 0 <= i < |db.vouchers| && Some(db.vouchers[i].code) == db.orders[o].discountCode;
      assert d.vouchers[i] == db.vouchers[i];
    }
    NoUses(db.orders, v.code);
    forall i | 0 <= i < |db.vouchers| ensures Issued(d, i) == Issued(db, i) {
      assert d.vouchers[i] == db.vouchers[i];
    }
  }

  /** What a checkout that used a discount does to the voucher table and its order. */
  lemma PlacedKeepsVouchers(db: Db, d: Db, order: Order, discount: Option<Discount>)
    requires VouchersOk(db)
    requires d.orders == db.orders + [order] && d.vouchers == UseVoucher(db.vouchers, discount)
    requires order.discountType == Some(VoucherCode) <==> discount.Some? && discount.value.kind.FromVoucher?
    requires order.discountType == Some(VoucherCode) ==>
      var row := discount.value.kind.row;
      row < |db.vouchers| && db.vouchers[row].remaining > 0 && order.discountCode == Some(db.vouchers[row].code)
    ensures VouchersOk(d) && VouchersKept(db, d)
  {
    forall i | 0 <= i < |db.vouchers|
      ensures d.vouchers[i].code == db.vouchers[i].code && d.vouchers[i].remaining >= 0
      ensures Issued(d, i) == Issued(db, i)
    {
      SumAppend(db.orders, order, UsesOf(db.vouchers[i].code));
      if order.discountType == Some(VoucherCode) {
        var row := discount.value.kind.row;
        assert i != row ==> db.vouchers[i].code != db.vouchers[row].code;
      }
    }
    forall o | 0 <= o < |d.orders| && d.orders[o].discountType == Some(VoucherCode)
      ensures exists i :: 0 <= i < |d.vouchers| && Some(d.vouchers[i].code) == d.orders[o].discountCode
    {
      if o < |db.orders| {
        var i :| 0 <= i < |db.vouchers| && Some(db.vouchers[i].code) == db.orders[o].discountCode;
        assert Some(d.vouchers[i].code) == d.orders[o].discountCode;
      } else {
        var row := discount.value.kind.row;
        assert Some(d.vouchers[row].code) == d.orders[o].discountCode;
      }
    }
  }

  lemma CheckoutKeepsVouchers(db: Db, buyer: UserId, req: Request)
    requires VouchersOk(db) && Checkout(db, buyer, req).Ok?
    ensures VouchersOk(Checkout(db, buyer, req).value) && VouchersKept(db, Checkout(db, buyer, req).value)
  {
    hide VouchersOk, VouchersKept, Reserve, Sorted, Upper, Trim, CalculateTotals, UseVoucher, Joined;
    var d := Checkout(db, buyer, req).value;
    var lines := Priced(db, Joined(db, CartOf(db, buyer).items));
    var discount := Discounted(db, req.code, Subtotal(lines), req.now, req.pick).value;
    PlacedKeepsVouchers(db, d, d.orders[|db.orders|], discount);
  }

  lemma OrderMovesKeepVouchers(db: Db, op: Op)
    requires VouchersOk(db) && Attempt(db, op).Ok? && (JobOp(op) || op.DoReturnOrder?)
    ensures VouchersOk(Attempt(db, op).value) && VouchersKept(db, Attempt(db, op).value)
  {
    hide Checkout, Consume, SetStock, AddItem, SetQuantity, VouchersOk, VouchersKept, Restock;
    SameOrdersKeepVouchers(db, Attempt(db, op).value);
  }

  lemma OtherOpsKeepVouchers(db: Db, op: Op)
    requires VouchersOk(db) && Attempt(db, op).Ok?
    requires WalletOp(op) || CartOp(op) || op.DoSetStock? || op.DoConsume?
    ensures VouchersOk(Attempt(db, op).value) && VouchersKept(db, Attempt(db, op).value)
  {
    hide Checkout, ReturnOrder, Consume, SetStock, AddItem, SetQuantity, VouchersOk, VouchersKept;
    if WalletOp(op) {
      WalletFrame(db, op);
    } else if CartOp(op) {
      CartFrame(db, op);
    } else if op.DoSetStock? {
      SetStockFrame(db, op.seller, op.product, op.units);
    } else {
      ConsumeFrame(db, op.event);
    }
    SameOrdersKeepVouchers(db, Attempt(db, op).value);
  }

  lemma StepKeepsVouchers(db: Db, op: Op, home: ProductId -> StoreId)
    requires VouchersOk(db) && Allowed(op, home)
    ensures VouchersOk(Step(db, op)) && VouchersKept(db, Step(db, op))
  {
    hide Checkout, ReturnOrder, Consume, SetStock, AddItem, SetQuantity, ProcessOrder, TakeJob, CompleteJob;
    hide VouchersOk, VouchersKept;
    if Attempt(db, op).Err? {
      SameOrdersKeepVouchers(db, db);
    } else {
      match op
      case DoCheckout(buyer, req) => CheckoutKeepsVouchers(db, buyer, req);
      case DoCreateVoucher(v) => CreateVoucherIssues(db, v);
      case DoCreatePromo(p) => SameOrdersKeepVouchers(db, Step(db, op));
      case _ =>
        if JobOp(op) || op.DoReturnOrder? {
          OrderMovesKeepVouchers(db, op);
        } else {
          OtherOpsKeepVouchers(db, op);
        }
    }
  }

  /** From any reachable state on, a voucher's remaining usage plus the orders that used it never
      changes, and the remaining usage never goes below zero. */
  lemma {:induction false} VoucherUsageConserved(db: Db, ops: seq<Op>, home: ProductId -> StoreId)
    requires VouchersOk(db) && AllAllowed(ops, home)
    ensures VouchersOk(Run(db, ops)) && VouchersKept(db, Run(db, ops))
  {
    if ops != [] {
      var mid := Run(db, ops[..|ops| - 1]);
      VoucherUsageConserved(db, ops[..|ops| - 1], home);
      StepKeepsVouchers(mid, ops[|ops| - 1], home);
    }
  }
}

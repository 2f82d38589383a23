/** Product replicas in commerce under reordered, repeated delivery, and the pending-stock hand-off. */
module CommerceSync {
  import opened Prelude
  import opened Contracts
  import opened Pricing
  import opened Commerce
  import opened CommerceReplica
  import opened CommerceStock

  // ----- tombstones -----

  predicate Tombstoned(db: Db, p: ProductId) { p in db.products && db.products[p].deleted }

  lemma ConsumeKeepsTombstone(db: Db, e: CatalogEvent, p: ProductId)
    requires Tombstoned(db, p) && Consume(db, e).Ok?
    ensures Tombstoned(Consume(db, e).value, p)
  {
    hide Arrival;
  }

  lemma ProductsFrame(db: Db, op: Op)
    requires !op.DoConsume? && Attempt(db, op).Ok?
    ensures Attempt(db, op).value.products == db.products && Attempt(db, op).value.stores == db.stores
    ensures !op.DoSetStock? ==> Attempt(db, op).value.pending == db.pending
  {
    hide Checkout, ReturnOrder, Consume, SetStock, AddItem, SetQuantity, ProcessOrder, TakeJob, CompleteJob;
    match op
    case DoCheckout(buyer, req) => CheckoutFrame(db, buyer, req);
    case DoReturnOrder(o) => ReturnFrame(db, o);
    case DoSetStock(seller, p, units) => SetStockFrame(db, seller, p, units);
    case _ =>
      if JobOp(op) {
        JobFrame(db, op);
      } else if CartOp(op) {
        CartFrame(db, op);
      } else if WalletOp(op) {
        WalletFrame(db, op);
      } else {
        CodeFrame(db, op);
      }
  }

  /** Once tombstoned, no run of events, stock settings, cart changes or orders revives a product or
      recreates its stock, its pending stock or a cart row. */
  lemma {:induction false} TombstoneForever(db: Db, ops: seq<Op>, p: ProductId, home: ProductId -> StoreId)
    requires Replica(db, home) && AllAllowed(ops, home) && Tombstoned(db, p)
    ensures Replica(Run(db, ops), home) && Tombstoned(Run(db, ops), p)
    ensures var d := Run(db, ops);
      && p !in d.inventory && p !in d.pending
      && forall u, i :: u in d.carts && 0 <= i < |d.carts[u].items| ==> d.carts[u].items[i].product != p
  {
    if ops != [] {
      var mid, op := Run(db, ops[..|ops| - 1]), ops[|ops| - 1];
      TombstoneForever(db, ops[..|ops| - 1], p, home);
      StepKeepsReplica(mid, op, home);
      if Attempt(mid, op).Ok? {
        if op.DoConsume? {
          ConsumeKeepsTombstone(mid, op.event, p);
        } else {
          ProductsFrame(mid, op);
        }
      }
    }
    NothingLeft(Run(db, ops), p, home);
  }

  lemma NothingLeft(db: Db, p: ProductId, home: ProductId -> StoreId)
    requires Replica(db, home) && Tombstoned(db, p)
    ensures p !in db.inventory && p !in db.pending
    ensures forall u, i :: u in db.carts && 0 <= i < |db.carts[u].items| ==> db.carts[u].items[i].product != p
  {
    assert p in db.inventory <==> Live(db, p);
    forall u, i | u in db.carts && 0 <= i < |db.carts[u].items| ensures db.carts[u].items[i].product != p {
      assert CartOk(db.inventory, db.carts[u], home);
    }
  }

  // ----- what a sequence of deliveries leaves of one product -----

  predicate About(e: CatalogEvent, p: ProductId) {
    (e.ProductUpserted? || e.ProductDeleted?) && e.product == p
  }

  function RefFrom(ref: Option<ProductRef>, e: CatalogEvent): Option<ProductRef> {
    match e
    case StoreUpserted(_, _, _, _, _) => ref
    case ProductUpserted(_, store, f, version) =>
      if ref.None? then Some(RefOf(store, f, false, version))
      else if ref.value.version >= version then ref
      else Some(RefOf(store, f, ref.value.deleted, version))
    case ProductDeleted(_, version) =>
      if ref.None? || ref.value.version >= version then ref
      else Some(ref.value.(deleted := true, version := version))
  }

  function RefAfter(es: seq<CatalogEvent>): Option<ProductRef> {
    if es == [] then None else RefFrom(RefAfter(es[..|es| - 1]), es[|es| - 1])
  }

  /** The events about `p` a run consumed successfully, in the order it did. */
  function Consumed(db: Db, ops: seq<Op>, p: ProductId): seq<CatalogEvent> {
    if ops == [] then []
    else
      var init, op := Consumed(db, ops[..|ops| - 1], p), ops[|ops| - 1];
      if op.DoConsume? && About(op.event, p) && Attempt(Run(db, ops[..|ops| - 1]), op).Ok?
      then init + [op.event]
      else init
  }

  function RefIn(db: Db, p: ProductId): Option<ProductRef> {
    if p in db.products then Some(db.products[p]) else None
  }

  lemma ConsumeIsRefFrom(db: Db, e: CatalogEvent, p: ProductId)
    requires Consume(db, e).Ok?
    ensures RefIn(Consume(db, e).value, p) == if About(e, p) then RefFrom(RefIn(db, p), e) else RefIn(db, p)
  {
    hide Arrival;
  }

  lemma StepIsRefFrom(db: Db, op: Op, p: ProductId)
    requires Attempt(db, op).Ok?
    ensures RefIn(Attempt(db, op).value, p)
      == if op.DoConsume? && About(op.event, p) then RefFrom(RefIn(db, p), op.event) else RefIn(db, p)
  {
    hide Checkout, ReturnOrder, Consume, SetStock, AddItem, SetQuantity, ProcessOrder, TakeJob, CompleteJob;
    if op.DoConsume? {
      ConsumeIsRefFrom(db, op.event, p);
    } else {
      ProductsFrame(db, op);
    }
  }

  /** Whatever else happens in between, a product's replica row depends only on the sequence of its
      own events that were consumed. */
  lemma {:induction false} RefIsFoldOfDeliveries(ops: seq<Op>, p: ProductId)
    ensures RefIn(Run(EMPTY, ops), p) == RefAfter(Consumed(EMPTY, ops, p))
  {
    hide Attempt, RefFrom;
    if ops != [] {
      var init, op := ops[..|ops| - 1], ops[|ops| - 1];
      RefIsFoldOfDeliveries(init, p);
      var mid := Run(EMPTY, init);
      var es := Consumed(EMPTY, init, p);
      assert op.DoConsume? ==> (es + [op.event])[..|es|] == es;
      if Attempt(mid, op).Ok? {
        StepIsRefFrom(mid, op, p);
      }
    }
  }

  /** As catalog emits them: one event per version, and a deletion above every upsert. */
  ghost predicate WellVersioned(es: seq<CatalogEvent>, p: ProductId) {
    && (forall i :: 0 <= i < |es| ==> About(es[i], p))
    && (forall i, j :: 0 <= i < |es| && 0 <= j < |es| && es[i].version == es[j].version ==> es[i] == es[j])
    && (forall i, j :: 0 <= i < |es| && 0 <= j < |es| && es[i].ProductUpserted? && es[j].ProductDeleted? ==>
          es[i].version < es[j].version)
    && (forall i, j :: 0 <= i < |es| && 0 <= j < |es| && es[i].ProductDeleted? && es[j].ProductDeleted? ==> es[i] == es[j])
  }

  ghost predicate DeletedAfterUpsert(es: seq<CatalogEvent>) {
    exists i, j :: 0 <= i < j < |es| && es[i].ProductUpserted? && es[j].ProductDeleted?
  }

  /** A live replica row that says what catalog said, field by field. */
  predicate IsRowOf(ref: ProductRef, store: StoreId, f: ProductFields, version: nat) {
    ref == ProductRef(store, f.name, f.slug, f.price, f.imageKey, false, version)
  }

  ghost predicate IsUpsertOf(es: seq<CatalogEvent>, ref: ProductRef) {
    exists e :: e in es && e.ProductUpserted? && IsRowOf(ref, e.store, e.fields, e.version)
  }

  /** Exactly what any delivery sequence leaves: a row iff an upsert came; a tombstone, at the
      deletion's version, iff the deletion came at some point after an upsert; otherwise the live row
      of the newest upsert. */
  lemma {:induction false} RefCharacterised(es: seq<CatalogEvent>, p: ProductId)
    requires WellVersioned(es, p)
    ensures RefAfter(es).Some? <==> exists e :: e in es && e.ProductUpserted?
    ensures RefAfter(es).Some? ==> (RefAfter(es).value.deleted <==> DeletedAfterUpsert(es))
    ensures RefAfter(es).Some? && !RefAfter(es).value.deleted ==>
      IsUpsertOf(es, RefAfter(es).value)
      && forall e :: e in es && e.ProductUpserted? ==> e.version <= RefAfter(es).value.version
    ensures RefAfter(es).Some? && RefAfter(es).value.deleted ==>
      exists e :: e in es && e.ProductDeleted? && e.version == RefAfter(es).value.version
  {
    if es != [] {
      var init, last := es[..|es| - 1], es[|es| - 1];
      assert es == init + [last];
      forall i, j | 0 <= i < |init| && 0 <= j < |init| && init[i].version == init[j].version ensures init[i] == init[j] {
        assert es[i] == es[j];
      }
      forall i, j | 0 <= i < |init| && 0 <= j < |init| && init[i].ProductDeleted? && init[j].ProductDeleted? ensures init[i] == init[j] {
        assert es[i] == es[j];
      }
      assert WellVersioned(init, p);
      RefCharacterised(init, p);
      LastDelivery(init, last, p);
    }
  }

  lemma LastDelivery(init: seq<CatalogEvent>, last: CatalogEvent, p: ProductId)
    requires WellVersioned(init + [last], p)
    requires RefAfter(init).Some? <==> exists e :: e in init && e.ProductUpserted?
    requires RefAfter(init).Some? ==> (RefAfter(init).value.deleted <==> DeletedAfterUpsert(init))
    requires RefAfter(init).Some? && !RefAfter(init).value.deleted ==>
      IsUpsertOf(init, RefAfter(init).value)
      && forall e :: e in init && e.ProductUpserted? ==> e.version <= RefAfter(init).value.version
    requires RefAfter(init).Some? && RefAfter(init).value.deleted ==>
      exists e :: e in init && e.ProductDeleted? && e.version == RefAfter(init).value.version
    ensures
      var es := init + [last];
      var ref := RefFrom(RefAfter(init), last);
      && (ref.Some? <==> exists e :: e in es && e.ProductUpserted?)
      && (ref.Some? ==> (ref.value.deleted <==> DeletedAfterUpsert(es)))
      && (ref.Some? && !ref.value.deleted ==>
            IsUpsertOf(es, ref.value)
            && forall e :: e in es && e.ProductUpserted? ==> e.version <= ref.value.version)
      && (ref.Some? && ref.value.deleted ==>
            exists e :: e in es && e.ProductDeleted? && e.version == ref.value.version)
  {
    hide RefAfter;
    var es := init + [last];
    var before := RefAfter(init);
    var ref := RefFrom(before, last);
    assert last == es[|init|] && last in es;
    assert forall e :: e in es <==> e in init || e == last;
    DeletedAfterSplit(init, last);
    if before.Some? && before.value.deleted {
      var d :| d in init && d.ProductDeleted? && d.version == before.value.version;
      var k :| 0 <= k < |init| && init[k] == d;
      assert es[k] == d;
      assert ref == before;
    } else if before.Some? {
      var u :| u in init && u.ProductUpserted? && IsRowOf(before.value, u.store, u.fields, u.version);
      var k :| 0 <= k < |init| && init[k] == u;
      assert es[k] == u;
      assert u in es;
    }
    assert last.ProductUpserted? && before.None? ==> IsRowOf(ref.value, last.store, last.fields, last.version);
  }

  lemma DeletedAfterSplit(init: seq<CatalogEvent>, last: CatalogEvent)
    ensures DeletedAfterUpsert(init + [last]) <==>
      DeletedAfterUpsert(init) || (last.ProductDeleted? && exists e :: e in init && e.ProductUpserted?)
  {
    var es := init + [last];
    if DeletedAfterUpsert(es) {
      var i, j :| 0 <= i < j < |es| && es[i].ProductUpserted? && es[j].ProductDeleted?;
      assert es[i] == init[i];
      if j < |init| {
        assert es[j] == init[j];
      } else {
        assert init[i] in init;
      }
    }
    if DeletedAfterUpsert(init) {
      var i, j :| 0 <= i < j < |init| && init[i].ProductUpserted? && init[j].ProductDeleted?;
      assert es[i] == init[i] && es[j] == init[j];
    }
    if last.ProductDeleted? && exists e :: e in init && e.ProductUpserted? {
      var e :| e in init && e.ProductUpserted?;
      var i :| 0 <= i < |init| && init[i] == e;
      assert es[i] == e && es[|init|] == last;
    }
  }

  // ----- stores -----

  function StoreRefOf(e: CatalogEvent): StoreRef
    requires e.StoreUpserted?
  {
    StoreRef(e.seller, e.storeName, e.storeSlug, e.version)
  }

  /** Some handled event is the row, and none handled is newer. */
  ghost predicate NewestStore(db: Db, handled: seq<CatalogEvent>, s: StoreId) {
    && (s in db.stores <==> exists e :: e in handled && e.StoreUpserted? && e.store == s)
    && (s in db.stores ==>
          && (exists e :: e in handled && e.StoreUpserted? && e.store == s && db.stores[s] == StoreRefOf(e))
          && (forall e :: e in handled && e.StoreUpserted? && e.store == s ==> e.version <= db.stores[s].version))
  }

  /** All events a run handled successfully. */
  function Handled(db: Db, ops: seq<Op>): seq<CatalogEvent> {
    if ops == [] then []
    else
      var init, op := Handled(db, ops[..|ops| - 1]), ops[|ops| - 1];
      if op.DoConsume? && Attempt(Run(db, ops[..|ops| - 1]), op).Ok? then init + [op.event] else init
  }

  lemma ConsumeStores(db: Db, e: CatalogEvent)
    requires Consume(db, e).Ok?
    ensures Consume(db, e).value.stores ==
      if e.StoreUpserted? && (e.store !in db.stores || db.stores[e.store].version < e.version)
      then db.stores[e.store := StoreRefOf(e)] else db.stores
  {
    hide Arrival;
  }

  lemma ConsumeKeepsNewest(db: Db, handled: seq<CatalogEvent>, e: CatalogEvent, s: StoreId)
    requires NewestStore(db, handled, s) && Consume(db, e).Ok?
    ensures NewestStore(Consume(db, e).value, handled + [e], s)
  {
    ConsumeStores(db, e);
    hide Consume;
    var more := handled + [e];
    assert forall x :: x in more <==> x in handled || x == e;
    assert e in more;
  }

  /** Whatever the delivery order and whatever else happens, a store row is the newest handled event of
      that store. */
  lemma {:induction false} StoreIsNewestHandled(ops: seq<Op>, s: StoreId)
    ensures NewestStore(Run(EMPTY, ops), Handled(EMPTY, ops), s)
  {
    if ops != [] {
      hide NewestStore, Attempt;
      var mid, op := Run(EMPTY, ops[..|ops| - 1]), ops[|ops| - 1];
      StoreIsNewestHandled(ops[..|ops| - 1], s);
      if Attempt(mid, op).Ok? {
        if op.DoConsume? {
          AttemptConsume(mid, op.event);
          ConsumeKeepsNewest(mid, Handled(EMPTY, ops[..|ops| - 1]), op.event, s);
        } else {
          ProductsFrame(mid, op);
          SameStoresNewest(mid, Attempt(mid, op).value, Handled(EMPTY, ops[..|ops| - 1]), s);
        }
      }
    }
  }

  lemma AttemptConsume(db: Db, e: CatalogEvent)
    ensures Attempt(db, DoConsume(e)) == Consume(db, e)
  {
    hide Consume;
  }

  lemma SameStoresNewest(db: Db, d: Db, handled: seq<CatalogEvent>, s: StoreId)
    requires NewestStore(db, handled, s) && d.stores == db.stores
    ensures NewestStore(d, handled, s)
  {
  }

  /** What the rest of commerce can see of a replica row: a tombstone hides its other fields. */
  datatype View = Absent | Gone(version: nat) | Shown(ref: ProductRef)

  function ViewOf(ref: Option<ProductRef>): View {
    if ref.None? then Absent else if ref.value.deleted then Gone(ref.value.version) else Shown(ref.value)
  }

  lemma NothingDeleted(es: seq<CatalogEvent>)
    requires !exists e :: e in es && e.ProductUpserted?
    ensures !DeletedAfterUpsert(es)
  {
    forall i | 0 <= i < |es| ensures !es[i].ProductUpserted? {
      assert es[i] in es;
    }
  }

  lemma SameVersionSameEvent(a: seq<CatalogEvent>, p: ProductId, x: CatalogEvent, y: CatalogEvent)
    requires WellVersioned(a, p) && x in a && y in a && !x.StoreUpserted? && !y.StoreUpserted? && x.version == y.version
    ensures x == y
  {
    var i :| 0 <= i < |a| && a[i] == x;
    var j :| 0 <= j < |a| && a[j] == y;
  }

  lemma SameDeletion(a: seq<CatalogEvent>, p: ProductId, x: CatalogEvent, y: CatalogEvent)
    requires WellVersioned(a, p) && x in a && y in a && x.ProductDeleted? && y.ProductDeleted?
    ensures x == y
  {
    var i :| 0 <= i < |a| && a[i] == x;
    var j :| 0 <= j < |a| && a[j] == y;
  }

  lemma SameRows(a: seq<CatalogEvent>, b: seq<CatalogEvent>, p: ProductId)
    requires WellVersioned(a, p) && WellVersioned(b, p) && forall e :: e in a <==> e in b
    requires RefAfter(a).Some? && RefAfter(b).Some? && RefAfter(a).value.deleted == RefAfter(b).value.deleted
    ensures ViewOf(RefAfter(a)) == ViewOf(RefAfter(b))
  {
    RefCharacterised(a, p);
    RefCharacterised(b, p);
    hide WellVersioned, RefAfter;
    if RefAfter(a).value.deleted {
      var x :| x in a && x.ProductDeleted? && x.version == RefAfter(a).value.version;
      var y :| y in b && y.ProductDeleted? && y.version == RefAfter(b).value.version;
      SameDeletion(a, p, x, y);
    } else {
      var x :| x in a && x.ProductUpserted? && IsRowOf(RefAfter(a).value, x.store, x.fields, x.version);
      var y :| y in b && y.ProductUpserted? && IsRowOf(RefAfter(b).value, y.store, y.fields, y.version);
      SameVersionSameEvent(a, p, x, y);
    }
  }

  /** Two delivery orders of the same events end in the same view exactly when both, or neither, deliver
      the deletion at some point after an upsert. */
  lemma DeliveryOrderIrrelevant(a: seq<CatalogEvent>, b: seq<CatalogEvent>, p: ProductId)
    requires WellVersioned(a, p) && WellVersioned(b, p)
    requires forall e :: e in a <==> e in b
    ensures ViewOf(RefAfter(a)) == ViewOf(RefAfter(b)) <==> (DeletedAfterUpsert(a) <==> DeletedAfterUpsert(b))
  {
    RefCharacterised(a, p);
    RefCharacterised(b, p);
    hide WellVersioned, RefAfter, DeletedAfterUpsert, IsUpsertOf;
    if RefAfter(a).None? {
      NothingDeleted(a);
      NothingDeleted(b);
    } else if RefAfter(a).value.deleted == RefAfter(b).value.deleted {
      SameRows(a, b, p);
    }
  }

  /** The hypothesis is needed: a deletion delivered before any upsert is dropped, and the late
      upsert then leaves the deleted product live. */
  lemma DeletionBeforeUpsertIsLost(p: ProductId, store: StoreId, f: ProductFields)
    ensures
      var up, del := ProductUpserted(p, store, f, 1), ProductDeleted(p, 2);
      && WellVersioned([up, del], p) && WellVersioned([del, up], p)
      && ViewOf(RefAfter([up, del])) == Gone(2)
      && ViewOf(RefAfter([del, up])) == Shown(RefOf(store, f, false, 1))
  {
    var up, del := ProductUpserted(p, store, f, 1), ProductDeleted(p, 2);
    assert [up, del][..1] == [up] && [del, up][..1] == [del];
    assert [up][..0] == [] && [del][..0] == [];
    assert RefAfter([up]) == Some(RefOf(store, f, false, 1));
    assert RefAfter([del]) == None;
  }

  /** Equality of the rows themselves would be too much: a tombstone keeps the fields of whichever
      upsert happened to be applied before it. */
  lemma TombstonesKeepStaleFields(p: ProductId, store: StoreId, f: ProductFields, g: ProductFields)
    requires f.name != g.name
    ensures
      var up1, up2, del := ProductUpserted(p, store, f, 1), ProductUpserted(p, store, g, 2), ProductDeleted(p, 3);
      && RefAfter([up1, up2, del]) == Some(RefOf(store, g, true, 3))
      && RefAfter([up1, del, up2]) == Some(RefOf(store, f, true, 3))
      && RefAfter([up1, up2, del]) != RefAfter([up1, del, up2])
  {
    var up1, up2, del := ProductUpserted(p, store, f, 1), ProductUpserted(p, store, g, 2), ProductDeleted(p, 3);
    assert [up1][..0] == [];
    assert RefAfter([up1]) == Some(RefOf(store, f, false, 1));
    assert [up1, up2][..1] == [up1] && [up1, del][..1] == [up1];
    assert RefAfter([up1, up2]) == Some(RefOf(store, g, false, 2));
    assert RefAfter([up1, del]) == Some(RefOf(store, f, true, 3));
    assert [up1, up2, del][..2] == [up1, up2] && [up1, del, up2][..2] == [up1, del];
  }

  // ----- pending stock -----

  function PendingIn(db: Db, p: ProductId): Option<PendingStock> {
    if p in db.pending then Some(db.pending[p]) else None
  }

  /** The last stock anyone set for `p`. */
  function LastSet(start: Option<PendingStock>, ops: seq<Op>, p: ProductId): Option<PendingStock> {
    if ops == [] then start
    else
      var op := ops[|ops| - 1];
      if op.DoSetStock? && op.product == p then Some(PendingStock(op.seller, op.units))
      else LastSet(start, ops[..|ops| - 1], p)
  }

  lemma ConsumeKeepsPending(db: Db, e: CatalogEvent, p: ProductId)
    requires Consume(db, e).Ok? && p !in Consume(db, e).value.products
    ensures p !in db.products && PendingIn(Consume(db, e).value, p) == PendingIn(db, p)
  {
    hide Arrival;
  }

  /** Until a product replicates, what is pending for it is the last stock that was set. */
  lemma {:induction false} PendingIsLastSet(db: Db, ops: seq<Op>, p: ProductId)
    requires p !in Run(db, ops).products
    ensures p !in db.products
    ensures PendingIn(Run(db, ops), p) == LastSet(PendingIn(db, p), ops, p)
  {
    hide Checkout, ReturnOrder, Consume, AddItem, SetQuantity, ProcessOrder, TakeJob, CompleteJob;
    if ops != [] {
      var init, op := ops[..|ops| - 1], ops[|ops| - 1];
      var mid := Run(db, init);
      if Attempt(mid, op).Ok? {
        if op.DoConsume? {
          ConsumeKeepsPending(mid, op.event, p);
        } else {
          ProductsFrame(mid, op);
        }
      }
      PendingIsLastSet(db, init, p);
    }
  }

  /** On arrival the last pending value becomes the stock, with its event, if its seller owns the
      product's store; a value set by anyone else is dropped. Either way nothing stays pending. */
  lemma ArrivalAppliesPending(db: Db, p: ProductId, f: ProductFields, version: nat, home: ProductId -> StoreId)
    requires Replica(db, home) && p !in db.products && home(p) in db.stores
    ensures
      var r := ReplicateProduct(db, p, home(p), f, version);
      && r.Ok? && Live(r.value, p) && p !in r.value.pending
      && var owned := p in db.pending && db.pending[p].seller == db.stores[home(p)].seller;
      && r.value.inventory == db.inventory[p := if owned then Stock(db.pending[p].units, 1) else Stock(0, 0)]
      && r.value.outbox == db.outbox
           + if owned then [InventoryChanged(p, db.pending[p].units, 1)] else []
  {
    assert p in db.inventory <==> Live(db, p);
  }

  /** The state both orders of the hand-off reach. */
  function HandedOff(db: Db, p: ProductId, ref: ProductRef, units: nat): Db {
    db.(products := db.products[p := ref],
        inventory := db.inventory[p := Stock(units, 1)],
        outbox := db.outbox + [InventoryChanged(p, units, 1)])
  }

  lemma StockFirst(db: Db, p: ProductId, f: ProductFields, version: nat, units: nat, home: ProductId -> StoreId)
    requires p !in db.inventory && p !in db.products && p !in db.pending && home(p) in db.stores
    ensures
      var kept := SetStock(db, db.stores[home(p)].seller, p, units);
      kept.Ok? && ReplicateProduct(kept.value, p, home(p), f, version)
        == Ok(HandedOff(db, p, RefOf(home(p), f, false, version), units))
  {
    var kept := PendingStock(db.stores[home(p)].seller, units);
    assert db.pending[p := kept] - {p} == db.pending;
    assert db.inventory[p := Stock(0, 0)][p := Stock(units, 1)] == db.inventory[p := Stock(units, 1)];
  }

  lemma ProductFirst(db: Db, p: ProductId, f: ProductFields, version: nat, units: nat, home: ProductId -> StoreId)
    requires p !in db.inventory && p !in db.products && p !in db.pending && home(p) in db.stores
    ensures
      var arrived := ReplicateProduct(db, p, home(p), f, version);
      arrived.Ok? && SetStock(arrived.value, db.stores[home(p)].seller, p, units)
        == Ok(HandedOff(db, p, RefOf(home(p), f, false, version), units))
  {
    assert db.pending - {p} == db.pending;
    assert db.inventory[p := Stock(0, 0)][p := Stock(units, 1)] == db.inventory[p := Stock(units, 1)];
  }

  /** For the store's owner it does not matter whether the stock or the product comes first. */
  lemma StockAndArrivalCommute(
    db: Db, p: ProductId, f: ProductFields, version: nat, units: nat, home: ProductId -> StoreId)
    requires Replica(db, home) && p !in db.products && p !in db.pending && home(p) in db.stores
    ensures
      var seller := db.stores[home(p)].seller;
      && SetStock(db, seller, p, units).Ok? && ReplicateProduct(db, p, home(p), f, version).Ok?
      && var stockFirst := ReplicateProduct(SetStock(db, seller, p, units).value, p, home(p), f, version);
      var productFirst := SetStock(ReplicateProduct(db, p, home(p), f, version).value, seller, p, units);
      stockFirst.Ok? && productFirst == stockFirst
  {
    assert p in db.inventory <==> Live(db, p);
    hide SetStock, ReplicateProduct, Replica, HandedOff;
    StockFirst(db, p, f, version, units, home);
    ProductFirst(db, p, f, version, units, home);
  }
}

/** The full rebuild: keyset export while catalog keeps committing, then the swap. */
module Rebuild {
  import opened Prelude
  import opened Contracts
  import opened Catalog
  import opened CatalogLog
  import opened Search

  /** Product ids are UUIDs: 128 bits, compared as the keyset order compares them. */
  const ID_SPACE: nat := 0x1_0000_0000_0000_0000_0000_0000_0000_0000
  const PAGE_SIZE: nat := 500

  // ----- one page -----

  datatype Row = Row(id: ProductId, doc: Doc, store: StoreId, storeDoc: StoreDoc)
  datatype Page = Page(rows: seq<Row>, next: Option<ProductId>)

  /** The first `limit` ids of `ids` from `from` on, in order. */
  function Scan(ids: set<ProductId>, from: nat, limit: nat): seq<ProductId>
    decreases ID_SPACE - from
  {
    if from >= ID_SPACE || limit == 0 then []
    else if from in ids then [from] + Scan(ids, from + 1, limit - 1)
    else Scan(ids, from + 1, limit)
  }

  function RowOf(cat: Cat, p: ProductId): Row
    requires p in cat.products && cat.products[p].store in cat.stores
  {
    var product, store := cat.products[p], cat.stores[cat.products[p].store];
    var storeDoc := StoreDoc(store.name, store.slug, store.version);
    Row(p, UpsertDoc(p, product.store, product.fields, product.version, storeDoc), product.store, storeDoc)
  }

  /** The join drops a product whose store is missing. */
  function Rows(cat: Cat, ids: seq<ProductId>): seq<Row> {
    if ids == [] then []
    else
      var init, p := Rows(cat, ids[..|ids| - 1]), ids[|ids| - 1];
      if p in cat.products && cat.products[p].store in cat.stores then init + [RowOf(cat, p)] else init
  }

  function From(after: Option<ProductId>): nat { if after.Some? then after.value + 1 else 0 }

  function ExportPage(cat: Cat, after: Option<ProductId>): Page {
    var rows := Rows(cat, Scan(cat.products.Keys, From(after), PAGE_SIZE));
    Page(rows, if |rows| == PAGE_SIZE then Some(rows[|rows| - 1].id) else None)
  }

  /** The bulk write is not guarded by version. */
  function Fill(x: Indices, rows: seq<Row>): Indices {
    if rows == [] then x
    else
      var before, row := Fill(x, rows[..|rows| - 1]), rows[|rows| - 1];
      Indices(before.index[row.id := row.doc], before.stores[row.store := row.storeDoc])
  }

  // ----- the page loop -----

  /** `pages` counts the pages read, so `world(pages)` is the catalog when the loop stopped. */
  datatype Export = Export(x: Indices, visited: seq<ProductId>, pages: nat, finished: bool)

  function Ids(rows: seq<Row>): seq<ProductId> { seq(|rows|, i requires 0 <= i < |rows| => rows[i].id) }

  /** The rows of a page whose ids are in `kept`. */
  function Kept(rows: seq<Row>, kept: set<ProductId>): seq<Row> {
    if rows == [] then []
    else
      var init, last := Kept(rows[..|rows| - 1], kept), rows[|rows| - 1];
      if last.id in kept then init + [last] else init
  }

  /** Page k is read from `world(k)`. A loop that fails does so after `budget` whole pages and, of the
      next, only the rows in `torn`: none if the read failed, some if the bulk write was rejected in
      part, all if the lease was lost. */
  function ExportFrom(world: nat -> Cat, k: nat, after: Option<ProductId>, x: Indices, budget: nat, torn: set<ProductId>): Export
    decreases budget
  {
    if budget == 0 then
      var rows := Kept(ExportPage(world(k), after).rows, torn);
      Export(Fill(x, rows), Ids(rows), k, false)
    else
      var page := ExportPage(world(k), after);
      var filled := Fill(x, page.rows);
      if page.next.None? then Export(filled, Ids(page.rows), k, true)
      else
        var rest := ExportFrom(world, k + 1, page.next, filled, budget - 1, torn);
        rest.(visited := Ids(page.rows) + rest.visited)
  }

  // ----- facts about a page -----

  ghost predicate Increasing(ids: seq<ProductId>) { forall i, j :: 0 <= i < j < |ids| ==> ids[i] < ids[j] }

  ghost predicate ScanOk(ids: set<ProductId>, from: nat, limit: nat, s: seq<ProductId>) {
    && |s| <= limit && Increasing(s)
    && (forall i :: 0 <= i < |s| ==> s[i] in ids && from <= s[i] < ID_SPACE)
    && (forall p :: p in ids && from <= p < ID_SPACE && (|s| < limit || (s != [] && p <= s[|s| - 1])) ==> p in s)
  }

  lemma ScanHit(ids: set<ProductId>, from: nat, limit: nat, rest: seq<ProductId>)
    requires from < ID_SPACE && from in ids && limit > 0 && ScanOk(ids, from + 1, limit - 1, rest)
    ensures ScanOk(ids, from, limit, [from] + rest)
  {
    var s := [from] + rest;
    assert s[0] == from && s[1..] == rest;
    forall p | p in ids && from < p < ID_SPACE && (|s| < limit || p <= s[|s| - 1]) ensures p in s {
      assert rest != [] ==> rest[|rest| - 1] == s[|s| - 1];
      assert p in rest;
    }
  }

  lemma {:induction false} ScanIs(ids: set<ProductId>, from: nat, limit: nat)
    ensures ScanOk(ids, from, limit, Scan(ids, from, limit))
    decreases ID_SPACE - from
  {
    if from < ID_SPACE && limit > 0 {
      if from in ids {
        ScanIs(ids, from + 1, limit - 1);
        ScanHit(ids, from, limit, Scan(ids, from + 1, limit - 1));
      } else {
        ScanIs(ids, from + 1, limit);
      }
    }
  }

  lemma {:induction false} RowsAreAll(cat: Cat, ids: seq<ProductId>, home: ProductId -> StoreId)
    requires LogOk(cat, home) && forall i :: 0 <= i < |ids| ==> ids[i] in cat.products
    ensures |Rows(cat, ids)| == |ids|
    ensures forall i :: 0 <= i < |ids| ==>
      cat.products[ids[i]].store in cat.stores && Rows(cat, ids)[i] == RowOf(cat, ids[i])
  {
    hide LogOk;
    if ids != [] {
      RowsAreAll(cat, ids[..|ids| - 1], home);
      ProductAtHome(cat, ids[|ids| - 1], home);
    }
  }

  /** A page holds consecutive products of the catalog it was read from, each as it was then. */
  ghost predicate PageOk(cat: Cat, after: Option<ProductId>, page: Page) {
    && (forall i :: 0 <= i < |page.rows| ==>
          var p := page.rows[i].id;
          && p in cat.products && cat.products[p].store in cat.stores
          && page.rows[i] == RowOf(cat, p) && From(after) <= p < ID_SPACE)
    && Increasing(Ids(page.rows))
    && (page.next.Some? ==>
          |page.rows| == PAGE_SIZE && page.next.value == page.rows[|page.rows| - 1].id)
    && (forall p :: p in cat.products && From(after) <= p < ID_SPACE && (page.next.Some? ==> p <= page.next.value) ==>
          p in Ids(page.rows))
  }

  lemma PageOfScan(cat: Cat, after: Option<ProductId>, ids: seq<ProductId>, rows: seq<Row>)
    requires ScanOk(cat.products.Keys, From(after), PAGE_SIZE, ids) && |rows| == |ids|
    requires forall i :: 0 <= i < |ids| ==>
      ids[i] in cat.products && cat.products[ids[i]].store in cat.stores && rows[i] == RowOf(cat, ids[i])
    ensures PageOk(cat, after, Page(rows, if |rows| == PAGE_SIZE then Some(rows[|rows| - 1].id) else None))
  {
    assert Ids(rows) == ids;
  }

  lemma ExportPageOk(cat: Cat, after: Option<ProductId>, home: ProductId -> StoreId)
    requires LogOk(cat, home)
    ensures PageOk(cat, after, ExportPage(cat, after))
  {
    var ids := Scan(cat.products.Keys, From(after), PAGE_SIZE);
    ScanIs(cat.products.Keys, From(after), PAGE_SIZE);
    RowsAreAll(cat, ids, home);
    hide LogOk, Scan, Rows, PageOk, RowOf;
    PageOfScan(cat, after, ids, Rows(cat, ids));
  }

  /** A page holds at most five hundred rows, and there is a next page exactly if it holds that many. */
  lemma PageHolds(cat: Cat, after: Option<ProductId>, home: ProductId -> StoreId)
    requires LogOk(cat, home)
    ensures
      var page := ExportPage(cat, after);
      && |page.rows| <= 500 && (page.next.Some? <==> |page.rows| == 500)
      && (page.next.Some? ==> page.next.value == page.rows[499].id)
  {
    var ids := Scan(cat.products.Keys, From(after), PAGE_SIZE);
    ScanIs(cat.products.Keys, From(after), PAGE_SIZE);
    RowsAreAll(cat, ids, home);
    hide LogOk, Scan, Rows, RowOf;
  }

  ghost predicate RowWritten(cat: Cat, p: ProductId, doc: Doc) {
    p in cat.products && cat.products[p].store in cat.stores
    && var product, store := cat.products[p], cat.stores[cat.products[p].store];
    && doc.version == product.version && !doc.deleted && doc.body.Some?
    && Shows(doc.body.value, product, store)
  }

  ghost predicate StoreWritten(cat: Cat, s: StoreId, doc: StoreDoc) {
    s in cat.stores && doc == StoreDoc(cat.stores[s].name, cat.stores[s].slug, cat.stores[s].version)
  }

  lemma {:induction false} FillWrites(cat: Cat, x: Indices, rows: seq<Row>)
    requires forall i :: 0 <= i < |rows| ==>
      rows[i].id in cat.products && cat.products[rows[i].id].store in cat.stores && rows[i] == RowOf(cat, rows[i].id)
    ensures
      var y := Fill(x, rows);
      && (forall p :: p in y.index <==> p in x.index || p in Ids(rows))
      && (forall p :: p in y.index ==> RowWritten(cat, p, y.index[p]) || (p in x.index && y.index[p] == x.index[p]))
      && (forall s :: s in x.stores ==> s in y.stores)
      && (forall s :: s in y.stores ==> StoreWritten(cat, s, y.stores[s]) || (s in x.stores && y.stores[s] == x.stores[s]))
  {
    if rows != [] {
      FillWrites(cat, x, rows[..|rows| - 1]);
      assert Ids(rows) == Ids(rows[..|rows| - 1]) + [rows[|rows| - 1].id];
    }
  }

  // ----- facts about the whole export -----

  /** Catalog while the export runs: every state is coherent and the log only grows. */
  ghost predicate History(world: nat -> Cat, home: ProductId -> StoreId) {
    && (forall k :: LogOk(world(k), home))
    && (forall j, k, e :: j <= k && e in world(j).log ==> e in world(k).log)
    && (forall k, p :: p in world(k).products ==> p < ID_SPACE)
  }

  ghost predicate WrittenDuring(world: nat -> Cat, from: nat, to: nat, p: ProductId, doc: Doc) {
    exists k :: from <= k <= to && RowWritten(world(k), p, doc)
  }

  ghost predicate StoreWrittenDuring(world: nat -> Cat, from: nat, to: nat, s: StoreId, doc: StoreDoc) {
    exists k :: from <= k <= to && StoreWritten(world(k), s, doc)
  }

  ghost predicate PresentThroughout(world: nat -> Cat, from: nat, to: nat, p: ProductId) {
    forall k :: from <= k <= to ==> p in world(k).products
  }

  /** Ids come strictly increasing, so no product twice, and a finished export misses none that stayed. */
  ghost predicate Visits(world: nat -> Cat, k: nat, after: Option<ProductId>, r: Export) {
    && k <= r.pages
    && Increasing(r.visited)
    && (forall i :: 0 <= i < |r.visited| ==> From(after) <= r.visited[i])
    && (r.finished ==> forall p :: From(after) <= p && PresentThroughout(world, k, r.pages, p) ==> p in r.visited)
  }

  /** The index is what it was plus exactly the visited ids, each as catalog had it during the export. */
  ghost predicate Fills(world: nat -> Cat, k: nat, x: Indices, r: Export) {
    && (forall p :: p in r.x.index <==> p in x.index || p in r.visited)
    && (forall p :: p in r.x.index ==>
          WrittenDuring(world, k, r.pages, p, r.x.index[p]) || (p in x.index && r.x.index[p] == x.index[p]))
  }

  ghost predicate FillsStores(world: nat -> Cat, k: nat, x: Indices, r: Export) {
    && (forall s :: s in x.stores ==> s in r.x.stores)
    && (forall s :: s in r.x.stores ==>
          StoreWrittenDuring(world, k, r.pages, s, r.x.stores[s]) || (s in x.stores && r.x.stores[s] == x.stores[s]))
  }

  ghost predicate ExportOk(world: nat -> Cat, k: nat, after: Option<ProductId>, x: Indices, r: Export) {
    Visits(world, k, after, r) && Fills(world, k, x, r) && FillsStores(world, k, x, r)
  }

  lemma OnePageVisits(world: nat -> Cat, k: nat, after: Option<ProductId>, page: Page, x: Indices, home: ProductId -> StoreId)
    requires History(world, home) && PageOk(world(k), after, page)
    ensures Visits(world, k, after, Export(x, Ids(page.rows), k, page.next.None?))
  {
    hide LogOk;
    if page.next.None? {
      forall p | From(after) <= p && PresentThroughout(world, k, k, p) ensures p in Ids(page.rows) {
        assert p in world(k).products;
      }
    }
  }

  ghost predicate FromCatalog(cat: Cat, rows: seq<Row>) {
    forall i :: 0 <= i < |rows| ==>
      rows[i].id in cat.products && cat.products[rows[i].id].store in cat.stores && rows[i] == RowOf(cat, rows[i].id)
  }

  lemma RowsFill(world: nat -> Cat, k: nat, x: Indices, rows: seq<Row>, finished: bool)
    requires FromCatalog(world(k), rows)
    ensures
      var r := Export(Fill(x, rows), Ids(rows), k, finished);
      Fills(world, k, x, r) && FillsStores(world, k, x, r)
  {
    var y := Fill(x, rows);
    FillWrites(world(k), x, rows);
    hide FromCatalog, RowWritten, StoreWritten, Fill, RowOf;
    forall p | p in y.index && RowWritten(world(k), p, y.index[p]) ensures WrittenDuring(world, k, k, p, y.index[p]) {
    }
    forall s | s in y.stores && StoreWritten(world(k), s, y.stores[s]) ensures StoreWrittenDuring(world, k, k, s, y.stores[s]) {
    }
  }

  lemma OnePage(world: nat -> Cat, k: nat, after: Option<ProductId>, x: Indices, page: Page, home: ProductId -> StoreId)
    requires History(world, home) && PageOk(world(k), after, page)
    ensures ExportOk(world, k, after, x, Export(Fill(x, page.rows), Ids(page.rows), k, page.next.None?))
  {
    hide Visits, PageOk, History, Fills, FillsStores, Fill;
    OnePageVisits(world, k, after, page, Fill(x, page.rows), home);
    PageFromCatalog(world(k), after, page);
    RowsFill(world, k, x, page.rows, page.next.None?);
  }

  lemma VisitsJoin(world: nat -> Cat, k: nat, after: Option<ProductId>, page: Page, rest: Export, home: ProductId -> StoreId)
    requires PageOk(world(k), after, page) && page.next.Some?
    requires Visits(world, k + 1, page.next, rest)
    ensures Visits(world, k, after, rest.(visited := Ids(page.rows) + rest.visited))
  {
    var ids := Ids(page.rows);
    assert ids[|ids| - 1] == page.next.value;
    forall i, j | 0 <= i < j < |ids + rest.visited| ensures (ids + rest.visited)[i] < (ids + rest.visited)[j] {
      if i < |ids| - 1 {
        assert ids[i] < ids[|ids| - 1];
      }
    }
    if rest.finished {
      forall p | From(after) <= p && PresentThroughout(world, k, rest.pages, p) ensures p in ids + rest.visited {
        assert p in world(k).products;
        if p > page.next.value {
          assert PresentThroughout(world, k + 1, rest.pages, p);
        } else {
          PagePresent(world(k), after, page, p);
        }
      }
    }
  }

  lemma PagePresent(cat: Cat, after: Option<ProductId>, page: Page, p: ProductId)
    requires PageOk(cat, after, page) && page.next.Some?
    requires p in cat.products && From(after) <= p <= page.next.value
    ensures p in Ids(page.rows)
  {
  }

  lemma WiderWindow(world: nat -> Cat, k: nat, to: nat, p: ProductId, doc: Doc)
    requires WrittenDuring(world, k + 1, to, p, doc)
    ensures WrittenDuring(world, k, to, p, doc)
  {
    var j :| k + 1 <= j <= to && RowWritten(world(j), p, doc);
  }

  lemma WiderStoreWindow(world: nat -> Cat, k: nat, to: nat, s: StoreId, doc: StoreDoc)
    requires StoreWrittenDuring(world, k + 1, to, s, doc)
    ensures StoreWrittenDuring(world, k, to, s, doc)
  {
    var j :| k + 1 <= j <= to && StoreWritten(world(j), s, doc);
  }

  lemma FillsJoin(world: nat -> Cat, k: nat, x: Indices, first: Export, rest: Export)
    requires Fills(world, k, x, first) && first.pages == k && k <= rest.pages
    requires Fills(world, k + 1, first.x, rest)
    ensures Fills(world, k, x, rest.(visited := first.visited + rest.visited))
  {
    hide RowWritten;
    forall p | p in rest.x.index
      ensures WrittenDuring(world, k, rest.pages, p, rest.x.index[p]) || (p in x.index && rest.x.index[p] == x.index[p])
    {
      if WrittenDuring(world, k + 1, rest.pages, p, rest.x.index[p]) {
        WiderWindow(world, k, rest.pages, p, rest.x.index[p]);
      } else if WrittenDuring(world, k, k, p, rest.x.index[p]) {
        assert RowWritten(world(k), p, rest.x.index[p]);
      }
    }
  }

  lemma FillsStoresJoin(world: nat -> Cat, k: nat, x: Indices, first: Export, rest: Export)
    requires FillsStores(world, k, x, first) && first.pages == k && k <= rest.pages
    requires FillsStores(world, k + 1, first.x, rest)
    ensures FillsStores(world, k, x, rest.(visited := first.visited + rest.visited))
  {
    hide StoreWritten;
    forall s | s in rest.x.stores
      ensures StoreWrittenDuring(world, k, rest.pages, s, rest.x.stores[s]) || (s in x.stores && rest.x.stores[s] == x.stores[s])
    {
      if StoreWrittenDuring(world, k + 1, rest.pages, s, rest.x.stores[s]) {
        WiderStoreWindow(world, k, rest.pages, s, rest.x.stores[s]);
      } else if StoreWrittenDuring(world, k, k, s, rest.x.stores[s]) {
        assert StoreWritten(world(k), s, rest.x.stores[s]);
      }
    }
  }

  lemma PagesJoin(
    world: nat -> Cat, k: nat, after: Option<ProductId>, x: Indices, page: Page, rest: Export, home: ProductId -> StoreId)
    requires History(world, home) && PageOk(world(k), after, page) && page.next.Some?
    requires ExportOk(world, k + 1, page.next, Fill(x, page.rows), rest)
    ensures ExportOk(world, k, after, x, rest.(visited := Ids(page.rows) + rest.visited))
  {
    OnePage(world, k, after, x, page, home);
    VisitsJoin(world, k, after, page, rest, home);
    hide History, PageOk, Fill;
    assert k <= rest.pages;
    hide Visits, Fills, FillsStores;
    var first := Export(Fill(x, page.rows), Ids(page.rows), k, false);
    FillsJoin(world, k, x, first, rest);
    FillsStoresJoin(world, k, x, first, rest);
  }

  lemma LastPage(world: nat -> Cat, k: nat, after: Option<ProductId>, x: Indices, budget: nat, torn: set<ProductId>)
    requires budget > 0 && ExportPage(world(k), after).next.None?
    ensures
      var page := ExportPage(world(k), after);
      ExportFrom(world, k, after, x, budget, torn) == Export(Fill(x, page.rows), Ids(page.rows), k, true)
  {
    hide ExportPage, Fill;
  }

  lemma MorePages(world: nat -> Cat, k: nat, after: Option<ProductId>, x: Indices, budget: nat, torn: set<ProductId>)
    requires budget > 0 && ExportPage(world(k), after).next.Some?
    ensures
      var page := ExportPage(world(k), after);
      var rest := ExportFrom(world, k + 1, page.next, Fill(x, page.rows), budget - 1, torn);
      ExportFrom(world, k, after, x, budget, torn) == rest.(visited := Ids(page.rows) + rest.visited)
  {
    hide ExportPage, Fill;
  }

  lemma PageFromCatalog(cat: Cat, after: Option<ProductId>, page: Page)
    requires PageOk(cat, after, page)
    ensures FromCatalog(cat, page.rows) && Increasing(Ids(page.rows))
    ensures forall i :: 0 <= i < |page.rows| ==> From(after) <= page.rows[i].id
  {
  }

  lemma {:induction false} KeptRows(cat: Cat, rows: seq<Row>, kept: set<ProductId>, from: nat)
    requires FromCatalog(cat, rows) && Increasing(Ids(rows)) && forall i :: 0 <= i < |rows| ==> from <= rows[i].id
    ensures var k := Kept(rows, kept);
      && FromCatalog(cat, k) && Increasing(Ids(k)) && (forall i :: 0 <= i < |k| ==> from <= k[i].id)
      && (forall i :: 0 <= i < |k| ==> rows != [] && k[i].id <= rows[|rows| - 1].id)
  {
    if rows != [] {
      var init, last := rows[..|rows| - 1], rows[|rows| - 1];
      assert Ids(init) == Ids(rows)[..|init|];
      KeptRows(cat, init, kept, from);
      hide Kept, FromCatalog;
      assert init != [] ==> Ids(rows)[|init| - 1] < Ids(rows)[|init|];
      KeptLast(Kept(init, kept), last);
    }
  }

  lemma KeptLast(kept: seq<Row>, last: Row)
    requires Increasing(Ids(kept)) && forall i :: 0 <= i < |kept| ==> kept[i].id < last.id
    ensures Increasing(Ids(kept + [last]))
  {
    assert Ids(kept + [last]) == Ids(kept) + [last.id];
    assert forall i :: 0 <= i < |kept| ==> Ids(kept)[i] == kept[i].id;
  }

  lemma TornPage(world: nat -> Cat, k: nat, after: Option<ProductId>, x: Indices, page: Page, torn: set<ProductId>)
    requires PageOk(world(k), after, page)
    ensures
      var rows := Kept(page.rows, torn);
      ExportOk(world, k, after, x, Export(Fill(x, rows), Ids(rows), k, false))
  {
    PageFromCatalog(world(k), after, page);
    hide PageOk, Fill, Fills, FillsStores, FromCatalog, Kept;
    KeptRows(world(k), page.rows, torn, From(after));
    RowsFill(world, k, x, Kept(page.rows, torn), false);
  }

  lemma StoppedThere(world: nat -> Cat, k: nat, after: Option<ProductId>, x: Indices, torn: set<ProductId>)
    ensures
      var rows := Kept(ExportPage(world(k), after).rows, torn);
      ExportFrom(world, k, after, x, 0, torn) == Export(Fill(x, rows), Ids(rows), k, false)
  {
    hide ExportPage, Fill;
  }

  /** While catalog commits between pages: the pages visit ids in strictly increasing order, so no
      product twice; a finished export has visited every product present throughout; and everything
      written is what catalog held when its page was read. */
  lemma {:induction false} ExportFacts(
    world: nat -> Cat, k: nat, after: Option<ProductId>, x: Indices, budget: nat, torn: set<ProductId>, home: ProductId -> StoreId)
    requires History(world, home)
    ensures ExportOk(world, k, after, x, ExportFrom(world, k, after, x, budget, torn))
    decreases budget
  {
    hide ExportOk, PageOk, ExportPage, Fill, LogOk, ExportFrom;
    var page := ExportPage(world(k), after);
    ExportPageOk(world(k), after, home);
    if budget == 0 {
      TornPage(world, k, after, x, page, torn);
      StoppedThere(world, k, after, x, torn);
    } else {
      if page.next.None? {
        LastPage(world, k, after, x, budget, torn);
        OnePage(world, k, after, x, page, home);
      } else {
        var rest := ExportFrom(world, k + 1, page.next, Fill(x, page.rows), budget - 1, torn);
        ExportFacts(world, k + 1, page.next, Fill(x, page.rows), budget - 1, torn, home);
        PagesJoin(world, k, after, x, page, rest, home);
        MorePages(world, k, after, x, budget, torn);
      }
    }
  }

  /** The loop ends even if catalog never stops committing: every page but the last consumes a full
      page of the id space. */
  lemma {:induction false} ExportTerminates(
    world: nat -> Cat, k: nat, after: Option<ProductId>, x: Indices, budget: nat, torn: set<ProductId>, home: ProductId -> StoreId)
    requires History(world, home) && From(after) <= ID_SPACE
    requires budget * PAGE_SIZE > ID_SPACE - From(after)
    ensures ExportFrom(world, k, after, x, budget, torn).finished
    decreases budget
  {
    hide LogOk, ExportPage, Fill;
    var page := ExportPage(world(k), after);
    ExportPageOk(world(k), after, home);
    if page.next.Some? {
      PageAdvances(world(k), after, page);
      hide PageOk;
      ExportTerminates(world, k + 1, page.next, Fill(x, page.rows), budget - 1, torn, home);
    }
  }

  lemma PageAdvances(cat: Cat, after: Option<ProductId>, page: Page)
    requires PageOk(cat, after, page) && page.next.Some?
    ensures From(after) + PAGE_SIZE <= From(page.next) <= ID_SPACE
  {
    var ids := Ids(page.rows);
    FullPageAdvances(ids, From(after), |ids| - 1);
  }

  lemma {:induction false} FullPageAdvances(ids: seq<ProductId>, from: nat, i: nat)
    requires Increasing(ids) && i < |ids| && forall j :: 0 <= j < |ids| ==> from <= ids[j]
    ensures ids[i] >= from + i
  {
    if i > 0 {
      FullPageAdvances(ids, from, i - 1);
      assert ids[i - 1] < ids[i];
    }
  }

  // ----- the rebuilt index -----

  /** Never older than anything already handled: a document written from catalog at any point of the
      export is at least as new as every event handled before the export began. */
  lemma WrittenIsNewEnough(cat: Cat, p: ProductId, doc: Doc, e: CatalogEvent, home: ProductId -> StoreId)
    requires LogOk(cat, home) && e in cat.log && RowWritten(cat, p, doc)
    ensures !e.StoreUpserted? && e.product == p ==> e.ProductUpserted? && doc.version >= e.version
    ensures e.StoreUpserted? ==> !Stale(doc, e.store, e.version)
  {
    assert Explained(cat, e, home);
  }

  lemma WrittenIsLogged(cat: Cat, p: ProductId, doc: Doc, home: ProductId -> StoreId)
    requires LogOk(cat, home) && RowWritten(cat, p, doc)
    ensures DocLogged(cat.log, p, doc)
  {
    var product, store := cat.products[p], cat.stores[cat.products[p].store];
    assert ProductEvent(p, product) in cat.log;
    assert StoreEvent(product.store, store) in cat.log;
  }

  lemma StoreWrittenIsLogged(cat: Cat, s: StoreId, doc: StoreDoc, home: ProductId -> StoreId)
    requires LogOk(cat, home) && StoreWritten(cat, s, doc)
    ensures NameLogged(cat.log, s, doc.name, doc.slug, doc.version)
    ensures forall e :: e in cat.log && e.StoreUpserted? && e.store == s ==> doc.version >= e.version
  {
    assert StoreEvent(s, cat.stores[s]) in cat.log;
    forall e | e in cat.log && e.StoreUpserted? && e.store == s ensures doc.version >= e.version {
      assert Explained(cat, e, home);
    }
  }

  lemma DocLoggedLater(log: seq<CatalogEvent>, more: seq<CatalogEvent>, p: ProductId, doc: Doc)
    requires DocLogged(log, p, doc) && forall e :: e in log ==> e in more
    ensures DocLogged(more, p, doc)
  {
  }

  lemma DeletionLoggedLater(log: seq<CatalogEvent>, more: seq<CatalogEvent>, p: ProductId)
    requires DeletionLogged(log, p) && forall e :: e in log ==> e in more
    ensures DeletionLogged(more, p)
  {
  }

  lemma RebuiltIsLogged(world: nat -> Cat, prior: Indices, r: Export, home: ProductId -> StoreId)
    requires History(world, home) && Logged(world(0).log, prior)
    requires ExportOk(world, 0, None, Indices(map[], prior.stores), r)
    ensures Logged(world(r.pages).log, r.x)
    ensures Logged(world(r.pages).log, Indices(prior.index, r.x.stores))
  {
    hide LogOk;
    var log := world(r.pages).log;
    forall p | p in r.x.index ensures DocLogged(log, p, r.x.index[p]) {
      var k :| 0 <= k <= r.pages && RowWritten(world(k), p, r.x.index[p]);
      WrittenIsLogged(world(k), p, r.x.index[p], home);
      DocLoggedLater(world(k).log, log, p, r.x.index[p]);
    }
    forall p | p in prior.index ensures DocLogged(log, p, prior.index[p]) {
      DocLoggedLater(world(0).log, log, p, prior.index[p]);
    }
    forall s | s in r.x.stores ensures NameLogged(log, s, r.x.stores[s].name, r.x.stores[s].slug, r.x.stores[s].version) {
      if StoreWrittenDuring(world, 0, r.pages, s, r.x.stores[s]) {
        var k :| 0 <= k <= r.pages && StoreWritten(world(k), s, r.x.stores[s]);
        StoreWrittenIsLogged(world(k), s, r.x.stores[s], home);
      }
    }
  }

  /** The lookup of store names is overwritten unguarded, yet never goes back behind a handled event. */
  lemma StoresStayCovered(world: nat -> Cat, prior: Indices, r: Export, e: CatalogEvent, home: ProductId -> StoreId)
    requires History(world, home) && e in world(0).log && e.StoreUpserted? && StoreCovered(prior, e)
    requires ExportOk(world, 0, None, Indices(map[], prior.stores), r)
    ensures e.store in r.x.stores && r.x.stores[e.store].version >= e.version
  {
    hide LogOk;
    var s := e.store;
    if StoreWrittenDuring(world, 0, r.pages, s, r.x.stores[s]) {
      var k :| 0 <= k <= r.pages && StoreWritten(world(k), s, r.x.stores[s]);
      StoreWrittenIsLogged(world(k), s, r.x.stores[s], home);
      assert e in world(k).log;
    }
  }

  lemma RebuiltCoversStore(world: nat -> Cat, prior: Indices, r: Export, e: CatalogEvent, home: ProductId -> StoreId)
    requires History(world, home) && e in world(0).log && e.StoreUpserted? && StoreCovered(prior, e)
    requires ExportOk(world, 0, None, Indices(map[], prior.stores), r)
    ensures StoreCovered(r.x, e)
  {
    StoresStayCovered(world, prior, r, e, home);
    hide LogOk;
    forall p | p in r.x.index ensures !Stale(r.x.index[p], e.store, e.version) {
      var k :| 0 <= k <= r.pages && RowWritten(world(k), p, r.x.index[p]);
      assert e in world(k).log;
      WrittenIsNewEnough(world(k), p, r.x.index[p], e, home);
    }
  }

  lemma AbsentIsDeleted(cat: Cat, e: CatalogEvent, home: ProductId -> StoreId)
    requires LogOk(cat, home) && e in cat.log && !e.StoreUpserted? && e.product !in cat.products
    ensures DeletionLogged(cat.log, e.product)
  {
  }

  lemma RebuiltCoversProduct(
    world: nat -> Cat, r: Export, x: Indices, e: CatalogEvent, home: ProductId -> StoreId)
    requires History(world, home) && e in world(0).log && !e.StoreUpserted? && r.finished
    requires x.index == map[] && ExportOk(world, 0, None, x, r)
    ensures ProductCovered(r.x.index, world(r.pages).log, e)
  {
    hide LogOk;
    var p := e.product;
    if p in r.x.index {
      var k :| 0 <= k <= r.pages && RowWritten(world(k), p, r.x.index[p]);
      assert e in world(k).log;
      WrittenIsNewEnough(world(k), p, r.x.index[p], e, home);
    } else {
      assert !PresentThroughout(world, 0, r.pages, p);
      var k :| 0 <= k <= r.pages && p !in world(k).products;
      assert e in world(k).log;
      AbsentIsDeleted(world(k), e, home);
      DeletionLoggedLater(world(k).log, world(r.pages).log, p);
    }
  }

  /** A finished rebuild loses no change: whatever catalog committed between its pages, the new index
      is in sync with everything handled before, so the remaining events converge on it. */
  lemma RebuildKeepsSync(world: nat -> Cat, prior: Indices, done: set<CatalogEvent>, budget: nat, torn: set<ProductId>, home: ProductId -> StoreId)
    requires History(world, home) && InSync(world(0).log, prior, done)
    requires ExportFrom(world, 0, None, Indices(map[], prior.stores), budget, torn).finished
    ensures
      var r := ExportFrom(world, 0, None, Indices(map[], prior.stores), budget, torn);
      InSync(world(r.pages).log, r.x, done)
  {
    hide LogOk, StoreCovered, ProductCovered, Logged, ExportOk, ExportFrom;
    var start := Indices(map[], prior.stores);
    var r := ExportFrom(world, 0, None, start, budget, torn);
    ExportFacts(world, 0, None, start, budget, torn, home);
    RebuiltIsLogged(world, prior, r, home);
    assert forall e :: e in done ==> e in world(0).log;
    forall e | e in done
      ensures if e.StoreUpserted? then StoreCovered(r.x, e) else ProductCovered(r.x.index, world(r.pages).log, e)
    {
      if e.StoreUpserted? {
        RebuiltCoversStore(world, prior, r, e, home);
      } else {
        RebuiltCoversProduct(world, r, start, e, home);
      }
    }
    LogGrows(world, 0, r, start, home);
  }

  lemma LogGrows(world: nat -> Cat, k: nat, r: Export, x: Indices, home: ProductId -> StoreId)
    requires History(world, home) && ExportOk(world, k, None, x, r)
    ensures forall e :: e in world(k).log ==> e in world(r.pages).log
  {
    hide LogOk;
  }

  /** A rebuild that fails before the swap leaves the live index as it was and still in sync, even
      though it already overwrote store names. */
  lemma FailedRebuildKeepsSync(world: nat -> Cat, prior: Indices, done: set<CatalogEvent>, budget: nat, torn: set<ProductId>, home: ProductId -> StoreId)
    requires History(world, home) && InSync(world(0).log, prior, done)
    ensures
      var r := ExportFrom(world, 0, None, Indices(map[], prior.stores), budget, torn);
      InSync(world(r.pages).log, Indices(prior.index, r.x.stores), done)
  {
    hide LogOk, Logged, ExportFrom, ExportOk;
    var start := Indices(map[], prior.stores);
    var r := ExportFrom(world, 0, None, start, budget, torn);
    ExportFacts(world, 0, None, start, budget, torn, home);
    LogGrows(world, 0, r, start, home);
    GrowingLogKeepsSync(world(0).log, world(r.pages).log, prior, done);
    RebuiltIsLogged(world, prior, r, home);
    var y := Indices(prior.index, r.x.stores);
    forall e | e in done
      ensures if e.StoreUpserted? then StoreCovered(y, e) else ProductCovered(y.index, world(r.pages).log, e)
    {
      if e.StoreUpserted? {
        StoresStayCovered(world, prior, r, e, home);
      }
    }
  }

  /** Nor does it ever go back: a product that was shown and is still in the new index is at least as
      new as it was. */
  lemma RebuildNeverLowersVersions(
    world: nat -> Cat, prior: Indices, done: set<CatalogEvent>, budget: nat, torn: set<ProductId>, p: ProductId, home: ProductId -> StoreId)
    requires History(world, home) && InSync(world(0).log, prior, done)
    requires p in prior.index && p in ExportFrom(world, 0, None, Indices(map[], prior.stores), budget, torn).x.index
    ensures ExportFrom(world, 0, None, Indices(map[], prior.stores), budget, torn).x.index[p].version >= prior.index[p].version
  {
    hide LogOk, ExportFrom, Covered;
    var start := Indices(map[], prior.stores);
    var r := ExportFrom(world, 0, None, start, budget, torn);
    ExportFacts(world, 0, None, start, budget, torn, home);
    var k :| 0 <= k <= r.pages && RowWritten(world(k), p, r.x.index[p]);
    assert DocLogged(world(0).log, p, prior.index[p]);
    var e :| e in world(0).log && !e.StoreUpserted? && e.product == p && e.version == prior.index[p].version;
    WrittenIsNewEnough(world(k), p, r.x.index[p], e, home);
  }

  // ----- the whole system -----

  datatype System = System(cat: Cat, x: Indices, done: set<CatalogEvent>)

  const START := System(EMPTY, Indices(map[], map[]), {})

  /** Event handling and rebuilds exclude each other (`exclusive`); catalog commits at any time. */
  datatype Move =
    | Commit(op: Op)
    | Deliver(event: CatalogEvent, outcome: Outcome)
    | Reindex(between: nat -> seq<Op>, budget: nat, torn: set<ProductId>)

  /** The catalog as page k is read: `between(k)` are the transactions committed after that. */
  function World(cat: Cat, between: nat -> seq<Op>, k: nat): Cat {
    if k == 0 then cat else Run(World(cat, between, k - 1), between(k - 1))
  }

  function WorldOf(cat: Cat, between: nat -> seq<Op>): nat -> Cat { (k: nat) => World(cat, between, k) }

  ghost predicate AllowedBetween(cat: Cat, between: nat -> seq<Op>, home: ProductId -> StoreId) {
    forall k: nat ::
      && AllAllowed(World(cat, between, k), between(k), home)
      && forall p :: p in World(cat, between, k).products ==> p < ID_SPACE
  }

  lemma BetweenPages(cat: Cat, between: nat -> seq<Op>, k: nat, home: ProductId -> StoreId)
    requires AllowedBetween(cat, between, home) && LogOk(World(cat, between, k), home)
    ensures LogOk(World(cat, between, k + 1), home)
    ensures forall e :: e in World(cat, between, k).log ==> e in World(cat, between, k + 1).log
  {
    hide LogOk, AllAllowed, Run;
    LogInvariant(World(cat, between, k), between(k), home);
  }

  lemma {:induction false} WorldLog(cat: Cat, between: nat -> seq<Op>, j: nat, k: nat, home: ProductId -> StoreId)
    requires LogOk(cat, home) && AllowedBetween(cat, between, home) && j <= k
    ensures LogOk(World(cat, between, k), home)
    ensures forall e :: e in World(cat, between, j).log ==> e in World(cat, between, k).log
  {
    hide LogOk, AllowedBetween, Run;
    if k > 0 {
      WorldLog(cat, between, if j < k then j else 0, k - 1, home);
      hide World;
      BetweenPages(cat, between, k - 1, home);
    }
  }

  lemma WorldIsHistory(cat: Cat, between: nat -> seq<Op>, home: ProductId -> StoreId)
    requires LogOk(cat, home) && AllowedBetween(cat, between, home)
    ensures History(WorldOf(cat, between), home)
  {
    hide LogOk, AllAllowed, World;
    var world := WorldOf(cat, between);
    forall k: nat ensures LogOk(world(k), home) {
      WorldLog(cat, between, k, k, home);
    }
    forall j: nat, k: nat, e | j <= k && e in world(j).log ensures e in world(k).log {
      WorldLog(cat, between, j, k, home);
    }
    assert forall k: nat :: world(k) == World(cat, between, k);
  }

  function Next(sys: System, m: Move): System {
    match m
    case Commit(op) => sys.(cat := Step(sys.cat, op))
    case Deliver(e, outcome) =>
      System(sys.cat, Attempted(sys.x, e, outcome), if Succeeds(sys.x, e, outcome) then sys.done + {e} else sys.done)
    case Reindex(between, budget, torn) =>
      var world := WorldOf(sys.cat, between);
      var r := ExportFrom(world, 0, None, Indices(map[], sys.x.stores), budget, torn);
      System(world(r.pages), if r.finished then r.x else Indices(sys.x.index, r.x.stores), sys.done)
  }

  ghost predicate Possible(sys: System, m: Move, home: ProductId -> StoreId) {
    match m
    case Commit(op) => Allowed(sys.cat, op, home)
    case Deliver(e, _) => e in sys.cat.log
    case Reindex(between, _, _) => AllowedBetween(sys.cat, between, home)
  }

  function After(moves: seq<Move>): System {
    if moves == [] then START else Next(After(moves[..|moves| - 1]), moves[|moves| - 1])
  }

  ghost predicate AllPossible(moves: seq<Move>, home: ProductId -> StoreId) {
    forall k :: 0 <= k < |moves| ==> Possible(After(moves[..k]), moves[k], home)
  }

  lemma MoveKeepsSync(sys: System, m: Move, home: ProductId -> StoreId)
    requires LogOk(sys.cat, home) && InSync(sys.cat.log, sys.x, sys.done) && Possible(sys, m, home)
    ensures var t := Next(sys, m); LogOk(t.cat, home) && InSync(t.cat.log, t.x, t.done)
  {
    match m
    case Commit(op) =>
      hide InSync, Step, Allowed;
      StepKeepsLog(sys.cat, op, home);
      hide LogOk;
      StepExtendsLog(sys.cat, op);
      GrowingLogKeepsSync(sys.cat.log, Step(sys.cat, op).log, sys.x, sys.done);
    case Deliver(e, outcome) =>
      AttemptKeepsSync(sys.cat.log, sys.x, sys.done, e, outcome);
    case Reindex(between, budget, torn) =>
      hide InSync, ExportFrom, LogOk;
      var world := WorldOf(sys.cat, between);
      WorldIsHistory(sys.cat, between, home);
      assert world(0) == sys.cat;
      var r := ExportFrom(world, 0, None, Indices(map[], sys.x.stores), budget, torn);
      assert LogOk(world(r.pages), home);
      if r.finished {
        RebuildKeepsSync(world, sys.x, sys.done, budget, torn, home);
      } else {
        FailedRebuildKeepsSync(world, sys.x, sys.done, budget, torn, home);
      }
  }

  lemma {:induction false} SystemInSync(moves: seq<Move>, home: ProductId -> StoreId)
    requires AllPossible(moves, home)
    ensures var t := After(moves); LogOk(t.cat, home) && InSync(t.cat.log, t.x, t.done)
  {
    if moves == [] {
      EmptyLogOk(home);
    } else {
      hide LogOk, InSync, Next, Possible;
      var init := moves[..|moves| - 1];
      forall k | 0 <= k < |init| ensures Possible(After(init[..k]), init[k], home) {
        assert init[..k] == moves[..k];
      }
      SystemInSync(init, home);
      assert moves[..|moves| - 1] == init;
      MoveKeepsSync(After(init), moves[|moves| - 1], home);
    }
  }

  // ----- deleted products that are shown -----

  /** A delivery that writes an upsert of a product whose deletion was handled and which a rebuild has left
      out of the index: nothing there stops it. */
  ghost predicate Resurrects(sys: System, m: Move, p: ProductId) {
    m.Deliver? && WritesProduct(sys.x, m.event, m.outcome) && m.event.product == p && !Safe(sys.x, sys.done, m.event)
  }

  /** What takes such a product out again: its deletion delivered once more, or a finished rebuild. */
  ghost predicate Buries(sys: System, m: Move, p: ProductId) {
    match m
    case Commit(_) => false
    case Deliver(e, outcome) => e.ProductDeleted? && e.product == p && !outcome.Refused?
    case Reindex(between, budget, torn) =>
      ExportFrom(WorldOf(sys.cat, between), 0, None, Indices(map[], sys.x.stores), budget, torn).finished
  }

  /** Move `i` brought `p` back and nothing since has buried it. */
  ghost predicate LeftShown(moves: seq<Move>, i: nat, p: ProductId) {
    && i < |moves| && Resurrects(After(moves[..i]), moves[i], p)
    && forall j :: i < j < |moves| ==> !Buries(After(moves[..j]), moves[j], p)
  }

  /** `p` is shown although its deletion was handled. */
  ghost predicate Risen(sys: System, p: ProductId) { Shown(sys.x.index, p) && DeletionDone(sys.done, p) }

  lemma DoneIsLogged(sys: System, p: ProductId)
    requires InSync(sys.cat.log, sys.x, sys.done) && DeletionDone(sys.done, p)
    ensures DeletionLogged(sys.cat.log, p)
  {
  }

  lemma DoneDeletions(sys: System, e: CatalogEvent, outcome: Outcome, p: ProductId)
    ensures DeletionDone(Next(sys, Deliver(e, outcome)).done, p) <==>
      DeletionDone(sys.done, p) || (Succeeds(sys.x, e, outcome) && e.ProductDeleted? && e.product == p)
  {
    hide Attempted, ExportFrom;
    var done := Next(sys, Deliver(e, outcome)).done;
    assert Succeeds(sys.x, e, outcome) ==> e in done;
    assert forall d :: d in sys.done ==> d in done;
  }

  lemma DeliveryRaises(sys: System, e: CatalogEvent, outcome: Outcome, p: ProductId, home: ProductId -> StoreId)
    requires LogOk(sys.cat, home) && InSync(sys.cat.log, sys.x, sys.done) && e in sys.cat.log
    ensures
      var m := Deliver(e, outcome);
      Risen(Next(sys, m), p) <==> (Risen(sys, p) && !Buries(sys, m, p)) || Resurrects(sys, m, p)
  {
    assert AllCoherent(sys.cat.log);
    hide LogOk;
    DoneDeletions(sys, e, outcome, p);
    if DeletionDone(sys.done, p) {
      DoneIsLogged(sys, p);
    }
    if e.ProductDeleted? && e.product == p {
      assert DeletionLogged(sys.cat.log, p);
    }
    if DeletionLogged(sys.cat.log, p) {
      DeliveryShows(sys.cat.log, sys.x, sys.done, e, outcome, p);
    }
    hide AllCoherent, InSync, Attempted, ExportFrom;
  }

  lemma RebuildRaises(sys: System, m: Move, p: ProductId, home: ProductId -> StoreId)
    requires LogOk(sys.cat, home) && InSync(sys.cat.log, sys.x, sys.done) && Possible(sys, m, home) && m.Reindex?
    ensures Risen(Next(sys, m), p) <==> Risen(sys, p) && !Buries(sys, m, p)
  {
    hide ExportFrom, LogOk;
    var world := WorldOf(sys.cat, m.between);
    WorldIsHistory(sys.cat, m.between, home);
    var start := Indices(map[], sys.x.stores);
    var r := ExportFrom(world, 0, None, start, m.budget, m.torn);
    if r.finished && DeletionDone(sys.done, p) {
      ExportFacts(world, 0, None, start, m.budget, m.torn, home);
      DeletedIsNotExported(sys, world, r, start, p, home);
    }
    hide InSync, AllowedBetween, WorldOf;
  }

  lemma DeletedIsNotExported(
    sys: System, world: nat -> Cat, r: Export, x: Indices, p: ProductId, home: ProductId -> StoreId)
    requires History(world, home) && world(0) == sys.cat && ExportOk(world, 0, None, x, r) && x.index == map[]
    requires InSync(sys.cat.log, sys.x, sys.done) && DeletionDone(sys.done, p)
    ensures p !in r.x.index
  {
    hide LogOk;
    var d :| d in sys.done && d.ProductDeleted? && d.product == p;
    if p in r.x.index {
      var k :| 0 <= k <= r.pages && RowWritten(world(k), p, r.x.index[p]);
      assert d in world(k).log;
      LiveHasNoDeletion(world(k), p, home);
      assert false;
    }
  }

  lemma MoveRaises(sys: System, m: Move, p: ProductId, home: ProductId -> StoreId)
    requires LogOk(sys.cat, home) && InSync(sys.cat.log, sys.x, sys.done) && Possible(sys, m, home)
    ensures Risen(Next(sys, m), p) <==> (Risen(sys, p) && !Buries(sys, m, p)) || Resurrects(sys, m, p)
  {
    hide LogOk, InSync, ExportFrom;
    match m
    case Commit(op) =>
    case Deliver(e, outcome) => DeliveryRaises(sys, e, outcome, p, home);
    case Reindex(_, _, _) => RebuildRaises(sys, m, p, home);
  }

  lemma LeftLonger(moves: seq<Move>, last: Move, i: nat, p: ProductId)
    requires i < |moves|
    ensures LeftShown(moves + [last], i, p) <==> LeftShown(moves, i, p) && !Buries(After(moves), last, p)
  {
    hide After, Buries, Resurrects;
    var more := moves + [last];
    assert forall j :: 0 <= j <= |moves| ==> more[..j] == moves[..j];
    assert moves[..|moves|] == moves;
  }

  /** After any run, a product whose deletion was handled is shown if and only if some move brought it back
      and nothing since has buried it. */
  lemma {:induction false} RisenIff(moves: seq<Move>, p: ProductId, home: ProductId -> StoreId)
    requires AllPossible(moves, home)
    ensures Risen(After(moves), p) <==> exists i :: LeftShown(moves, i, p)
  {
    hide Next, Possible, Resurrects, Buries, LogOk, InSync, Risen, LeftShown;
    if moves == [] {
      NothingRisen(p);
    } else {
      var init, last := moves[..|moves| - 1], moves[|moves| - 1];
      forall k | 0 <= k < |init| ensures Possible(After(init[..k]), init[k], home) {
        assert init[..k] == moves[..k];
      }
      assert moves[..|init|] == init && moves == init + [last];
      RisenIff(init, p, home);
      SystemInSync(init, home);
      MoveRaises(After(init), last, p, home);
      assert After(moves) == Next(After(init), last);
      hide After;
      forall i: nat ensures LeftShown(moves, i, p)
        <==> (LeftShown(init, i, p) && !Buries(After(init), last, p)) || (i == |init| && Resurrects(After(init), last, p))
      {
        LeftAt(init, last, i, p);
      }
      if exists i: nat :: LeftShown(init, i, p) && !Buries(After(init), last, p) {
        var i: nat :| LeftShown(init, i, p);
        assert LeftShown(moves, i, p);
      }
      assert Resurrects(After(init), last, p) ==> LeftShown(moves, |init|, p);
    }
  }

  lemma LeftAt(init: seq<Move>, last: Move, i: nat, p: ProductId)
    ensures LeftShown(init + [last], i, p)
      <==> (LeftShown(init, i, p) && !Buries(After(init), last, p)) || (i == |init| && Resurrects(After(init), last, p))
  {
    if i < |init| {
      LeftLonger(init, last, i, p);
    } else {
      hide After, Buries, Resurrects;
      assert (init + [last])[..|init|] == init;
    }
  }

  lemma NothingRisen(p: ProductId)
    ensures !Risen(After([]), p) && forall i :: !LeftShown([], i, p)
  {
  }

  lemma SystemShows(moves: seq<Move>, home: ProductId -> StoreId)
    requires AllPossible(moves, home)
    requires forall e :: e in After(moves).cat.log ==> e in After(moves).done
    ensures
      var cat, shown := After(moves).cat, Visible(After(moves).x.index);
      && ShowsCatalog(shown, cat)
      && (forall p :: p in Expected(cat) ==> p in shown && shown[p] == Expected(cat)[p])
      && (shown == Expected(cat) <==> forall p :: p in shown ==> p in cat.products)
  {
    SystemInSync(moves, home);
    hide LogOk, InSync, AllPossible, Visible, Expected, After, ShowsCatalog;
    var t := After(moves);
    SyncedIsCatalog(t.cat, t.x, t.done, home);
  }

  lemma WrongIsLeft(moves: seq<Move>, p: ProductId, home: ProductId -> StoreId)
    requires AllPossible(moves, home)
    requires forall e :: e in After(moves).cat.log ==> e in After(moves).done
    ensures p in Visible(After(moves).x.index) && p !in After(moves).cat.products <==> exists i :: LeftShown(moves, i, p)
  {
    SystemInSync(moves, home);
    RisenIff(moves, p, home);
    hide LogOk, InSync, AllPossible, LeftShown, Visible, After;
    RisenIsWrong(After(moves), p, home);
  }

  /** Search converges: for every run of catalog commits, reordered, repeated, refused or half-done
      deliveries, and finished or failed rebuilds, once each event of the log has been handled at least
      once every product of catalog is shown with its latest fields and its store's latest name and slug.
      The visible documents are exactly those if and only if no deleted product was brought back by a late
      upsert and left there. */
  lemma SearchConverges(moves: seq<Move>, home: ProductId -> StoreId)
    requires AllPossible(moves, home)
    requires forall e :: e in After(moves).cat.log ==> e in After(moves).done
    ensures
      var shown, expected := Visible(After(moves).x.index), Expected(After(moves).cat);
      && (forall p :: p in expected ==> p in shown && shown[p] == expected[p])
      && ShowsCatalog(shown, After(moves).cat)
      && (shown == expected <==> forall i, p :: !LeftShown(moves, i, p))
  {
    hide LeftShown, AllPossible, Visible, Expected, After, ShowsCatalog;
    SystemShows(moves, home);
    var shown, cat := Visible(After(moves).x.index), After(moves).cat;
    if shown == Expected(cat) {
      forall i: nat, p ensures !LeftShown(moves, i, p) {
        WrongIsLeft(moves, p, home);
      }
    } else {
      var p :| p in shown && p !in cat.products;
      WrongIsLeft(moves, p, home);
    }
  }

  /** With everything handled, the products wrongly shown are the risen ones. */
  lemma RisenIsWrong(sys: System, p: ProductId, home: ProductId -> StoreId)
    requires LogOk(sys.cat, home) && InSync(sys.cat.log, sys.x, sys.done)
    requires forall e :: e in sys.cat.log ==> e in sys.done
    ensures p in Visible(sys.x.index) && p !in sys.cat.products <==> Risen(sys, p)
  {
    ShownIsVisible(sys.cat.log, sys.x, p);
    if DeletionDone(sys.done, p) {
      DoneIsLogged(sys, p);
    }
    if p in sys.cat.products {
      LiveHasNoDeletion(sys.cat, p, home);
    } else if Shown(sys.x.index, p) {
      assert DocLogged(sys.cat.log, p, sys.x.index[p]);
      var e :| e in sys.cat.log && e.ProductUpserted? && e.product == p;
      AbsentIsDeleted(sys.cat, e, home);
      var d :| d in sys.cat.log && d.ProductDeleted? && d.product == p;
      assert d in sys.done;
    }
  }

  /** So if every delivery was safe when it came, search shows exactly the catalog. */
  lemma SafeDeliveriesConverge(moves: seq<Move>, home: ProductId -> StoreId)
    requires AllPossible(moves, home)
    requires forall e :: e in After(moves).cat.log ==> e in After(moves).done
    requires forall k :: 0 <= k < |moves| && moves[k].Deliver? ==>
      Safe(After(moves[..k]).x, After(moves[..k]).done, moves[k].event)
    ensures Visible(After(moves).x.index) == Expected(After(moves).cat)
  {
    hide After, AllPossible, Safe, Visible, Expected;
    SearchConverges(moves, home);
  }

  // ----- without rebuilds the delivery hypothesis is free -----

  ghost predicate Remembers(sys: System) {
    forall e :: e in sys.done && !e.StoreUpserted? ==> e.product in sys.x.index
  }

  lemma DeliveryRemembers(sys: System, e: CatalogEvent, outcome: Outcome)
    requires Remembers(sys)
    ensures Remembers(Next(sys, Deliver(e, outcome)))
  {
    hide ExportFrom;
  }

  /** As long as no rebuild has run, every handled product has a document or tombstone, so any
      delivery whatsoever is safe. */
  lemma {:induction false} DeliveriesAreSafeBeforeAnyRebuild(moves: seq<Move>, e: CatalogEvent)
    requires forall k :: 0 <= k < |moves| ==> !moves[k].Reindex?
    ensures Remembers(After(moves)) && Safe(After(moves).x, After(moves).done, e)
  {
    hide Attempted, Succeeds, Step;
    if moves != [] {
      DeliveriesAreSafeBeforeAnyRebuild(moves[..|moves| - 1], e);
      var m := moves[|moves| - 1];
      if m.Deliver? {
        DeliveryRemembers(After(moves[..|moves| - 1]), m.event, m.outcome);
      }
    }
  }

  /** So a run without rebuilds converges whatever is delivered, in whatever order. */
  lemma NoRebuildConverges(moves: seq<Move>, home: ProductId -> StoreId)
    requires AllPossible(moves, home) && forall k :: 0 <= k < |moves| ==> !moves[k].Reindex?
    requires forall e :: e in After(moves).cat.log ==> e in After(moves).done
    ensures Visible(After(moves).x.index) == Expected(After(moves).cat)
  {
    hide After, AllPossible, Safe, Visible, Expected, Remembers;
    forall k | 0 <= k < |moves| && moves[k].Deliver?
      ensures Safe(After(moves[..k]).x, After(moves[..k]).done, moves[k].event)
    {
      DeliveriesAreSafeBeforeAnyRebuild(moves[..k], moves[k].event);
    }
    SafeDeliveriesConverge(moves, home);
  }

  /** Handling one unsafe delivery shows a product that catalog has deleted, although its deletion was
      handled. */
  lemma UnsafeDeliveryResurrects(sys: System, e: CatalogEvent, home: ProductId -> StoreId)
    requires LogOk(sys.cat, home) && InSync(sys.cat.log, sys.x, sys.done) && e in sys.cat.log
    requires !Safe(sys.x, sys.done, e) && Ready(sys.x, e)
    ensures e.product !in sys.cat.products && e.product !in Visible(sys.x.index)
    ensures e.product in Visible(Next(sys, Deliver(e, Handled)).x.index)
  {
    hide AllCoherent, Logged, Covered, ExportFrom;
    var d :| d in sys.done && d.ProductDeleted? && d.product == e.product;
    assert Explained(sys.cat, d, home);
  }

  /** The bulk write is not version-guarded, so were another instance to apply a newer event to the new
      index between a page's read and its write, the page would put the older document back. */
  lemma BulkWriteForgetsNewer(cat: Cat, x: Indices, p: ProductId)
    requires p in cat.products && cat.products[p].store in cat.stores
    requires p in x.index && x.index[p].version > cat.products[p].version
    ensures p in Fill(x, [RowOf(cat, p)]).index
    ensures Fill(x, [RowOf(cat, p)]).index[p].version < x.index[p].version
  {
    var rows := [RowOf(cat, p)];
    assert Fill(x, rows[..0]) == x;
  }

  /** The hypothesis is needed: a rebuilt index carries no tombstones, so an upsert redelivered after
      its product's deletion was handled and the index rebuilt shows a product catalog deleted. */
  lemma RebuiltIndexForgetsTombstones(p: ProductId, s: StoreId, f: ProductFields, store: StoreDoc)
    ensures
      var before := Indices(map[p := Doc(2, true, None)], map[s := store]);
      var rebuilt := Indices(map[], map[s := store]);
      var late := ProductUpserted(p, s, f, 1);
      && p !in Visible(Attempted(before, late, Handled).index)
      && p in Visible(Attempted(rebuilt, late, Handled).index)
  {
  }
}

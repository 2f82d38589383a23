/** The search indices as one instance writes them: guarded upserts, the rename, and the rebuild loop. */
module SearchService {
  import opened Prelude
  import opened Contracts
  import opened Catalog
  import opened Search
  import opened CatalogLog
  import opened Rebuild

  /** Enough pages for any catalog. */
  const ALL_PAGES: nat := ID_SPACE / PAGE_SIZE + 1

  /** Where a rebuild breaks: which page, and which of its rows were written before it did. */
  datatype Break = Break(page: nat, written: set<ProductId>)

  function Budget(breaks: Option<Break>): nat { if breaks.Some? then breaks.value.page else ALL_PAGES }

  function Torn(breaks: Option<Break>): set<ProductId> { if breaks.Some? then breaks.value.written else {} }

  /** What reaches the service or moves its source: a commit of catalog, an event with how far its handling
      gets, or a rebuild that reads `world` while `between` commits. */
  datatype Request =
    | Commits(op: Op)
    | Handle(event: CatalogEvent, limit: nat)
    | RebuildNow(between: nat -> seq<Op>, world: nat -> Cat, breaks: Option<Break>)

  /** The move of the whole system that a request comes to; how far a handler got is the engine's choice. */
  ghost predicate Answers(m: Move, req: Request) {
    match req
    case Commits(op) => m == Commit(op)
    case Handle(e, _) => m.Deliver? && m.event == e
    case RebuildNow(between, _, breaks) => m.Reindex? && m.between == between && m.budget == Budget(breaks) && m.torn == Torn(breaks)
  }

  ghost predicate AnswersAll(moves: seq<Move>, requests: seq<Request>) {
    |moves| <= |requests| && forall i :: 0 <= i < |moves| ==> Answers(moves[i], requests[i])
  }

  /** Catalog commits what it may, and only its events are delivered. */
  ghost predicate Fits(sys: System, req: Request, home: ProductId -> StoreId) {
    match req
    case Commits(op) => Allowed(sys.cat, op, home)
    case Handle(e, _) => e in sys.cat.log
    case RebuildNow(between, world, _) => world == WorldOf(sys.cat, between) && AllowedBetween(sys.cat, between, home)
  }

  lemma AfterOneMore(moves: seq<Move>, m: Move)
    ensures After(moves + [m]) == Next(After(moves), m)
  {
    hide Next;
    assert (moves + [m])[..|moves|] == moves;
  }

  lemma PossibleOneMore(moves: seq<Move>, m: Move, home: ProductId -> StoreId)
    requires AllPossible(moves, home) && Possible(After(moves), m, home)
    ensures AllPossible(moves + [m], home)
  {
    hide After, Possible;
    var more := moves + [m];
    forall k | 0 <= k < |more| ensures Possible(After(more[..k]), more[k], home) {
      if k < |moves| {
        assert more[..k] == moves[..k] && more[k] == moves[k];
      } else {
        assert more[..k] == moves && more[k] == m;
      }
    }
  }

  lemma NothingYet(requests: seq<Request>, home: ProductId -> StoreId)
    ensures After([]) == START && AllPossible([], home) && AnswersAll([], requests)
  {
  }

  lemma AnswersOneMore(moves: seq<Move>, m: Move, requests: seq<Request>)
    requires |moves| < |requests| && AnswersAll(moves, requests) && Answers(m, requests[|moves|])
    ensures AnswersAll(moves + [m], requests)
  {
    hide Answers;
  }

  class Elastic {
    var live: Index
    var building: Option<Index>
    var stores: map<StoreId, StoreDoc>

    function State(): Indices
      reads this
    {
      Indices(live, stores)
    }

    constructor ()
      ensures State() == Indices(map[], map[]) && building == None
    {
      live, building, stores := map[], None, map[];
    }

    // ----- event handlers -----

    /** The live index, then the one a rebuild on any instance is filling, unless it fails in between. */
    method UpsertProductDoc(p: ProductId, doc: Doc, fails: bool) returns (ok: bool)
      modifies this`live, this`building
      ensures ok == !fails
      ensures live == Guarded(old(live), p, doc)
      ensures building == if fails || old(building).None? then old(building) else Some(Guarded(old(building).value, p, doc))
    {
      live := Guarded(live, p, doc);
      if fails {
        return false;
      }
      if building.Some? {
        building := Some(Guarded(building.value, p, doc));
      }
      return true;
    }

    method UpsertProduct(e: CatalogEvent, fails: bool) returns (ok: bool)
      requires e.ProductUpserted?
      modifies this`live, this`building
      ensures ok <==> Succeeds(old(State()), e, if fails then Interrupted({}) else Handled)
      ensures State() == Attempted(old(State()), e, if fails then Interrupted({}) else Handled)
      ensures building.Some? == old(building).Some?
      ensures building.Some? ==>
        building.value == Attempted(Indices(old(building).value, stores), e, if fails then Refused else Handled).index
      ensures e.store in stores && (e.product in old(live) ==> old(live)[e.product].version < e.version) ==>
        var f, store := e.fields, stores[e.store];
        var copy := Indexed(f.name, f.slug, f.description, f.rating, f.reviewCount, f.soldCount);
        live == old(live)[e.product := Doc(e.version, false, Some(Body(e.store, copy, store.name, store.slug, store.version)))]
      ensures e.store !in stores || (e.product in old(live) && old(live)[e.product].version >= e.version) ==> live == old(live)
    {
      if e.store !in stores {
        return false;
      }
      ok := UpsertProductDoc(e.product, UpsertDoc(e.product, e.store, e.fields, e.version, stores[e.store]), fails);
    }

    method DeleteProductDoc(e: CatalogEvent, fails: bool) returns (ok: bool)
      requires e.ProductDeleted?
      modifies this`live, this`building
      ensures ok == !fails
      ensures State() == Attempted(old(State()), e, if fails then Interrupted({}) else Handled)
      ensures
        var newer := e.product in old(live) ==> old(live)[e.product].version < e.version;
        var body := if e.product in old(live) then old(live)[e.product].body else None;
        live == if newer then old(live)[e.product := Doc(e.version, true, body)] else old(live)
      ensures building.Some? == old(building).Some?
      ensures building.Some? ==>
        building.value == Attempted(Indices(old(building).value, stores), e, if fails then Refused else Handled).index
    {
      ok := UpsertProductDoc(e.product, Doc(e.version, true, None), fails);
    }

    /** The update by query over one index, document by document, stopping after `limit` of them. */
    method RenameDocs(index: Index, s: StoreId, store: StoreDoc, limit: nat)
      returns (renamed: Index, left: nat, ghost reached: set<ProductId>)
      ensures reached <= index.Keys && renamed == Rename(index, s, store, reached)
      ensures left > 0 ==> reached == index.Keys
      ensures limit > |index| ==> left > 0 && renamed == Rename(index, s, store, index.Keys)
    {
      renamed, left, reached := index, limit, {};
      var todo := index.Keys;
      while todo != {} && left > 0
        invariant todo <= index.Keys && reached == index.Keys - todo
        invariant renamed == Rename(index, s, store, reached)
        invariant limit > |index| ==> left > |todo|
        decreases |todo|
      {
        hide Rename, Stale;
        var p :| p in todo;
        todo := todo - {p};
        RenameOneMore(index, s, store, reached, p);
        reached := reached + {p};
        if Stale(renamed[p], s, store.version) {
          renamed := renamed[p := Renamed(renamed[p], store)];
        }
        left := left - 1;
      }
      if todo != {} {
        left := 0;
      }
    }

    /** A rename interrupted anywhere is finished by a retry: each document is guarded by itself. */
    method UpsertStore(e: CatalogEvent, limit: nat) returns (ok: bool, ghost onLive: Outcome, ghost onBuilding: Outcome)
      requires e.StoreUpserted?
      modifies this
      ensures State() == Attempted(old(State()), e, onLive)
      ensures building.Some? == old(building).Some?
      ensures building.Some? ==> building.value == Attempted(Indices(old(building).value, old(stores)), e, onBuilding).index
      ensures !onLive.Refused? && (ok ==> onLive.Handled? && onBuilding.Handled?)
      ensures limit > |old(live)| ==> onLive.Handled?
    {
      var store := StoreDoc(e.storeName, e.storeSlug, e.version);
      if e.store !in stores || stores[e.store].version < e.version {
        stores := stores[e.store := store];
      }
      ok, onBuilding := false, Refused;
      ghost var reached;
      var left;
      live, left, reached := RenameDocs(live, e.store, store, limit);
      if left == 0 {
        onLive := Interrupted(reached);
        return;
      }
      onLive := Handled;
      if building.Some? {
        var renamed;
        renamed, left, reached := RenameDocs(building.value, e.store, store, left);
        building := Some(renamed);
        if left == 0 {
          onBuilding := Interrupted(reached);
          return;
        }
      }
      ok, onBuilding := true, Handled;
    }

    // ----- the rebuild -----

    /** One bulk request: rows go into the new index and the store lookup, unguarded. */
    method BulkWrite(rows: seq<Row>)
      requires building.Some?
      modifies this`building, this`stores
      ensures building.Some?
      ensures Indices(building.value, stores) == Fill(Indices(old(building).value, old(stores)), rows)
    {
      ghost var was := Indices(building.value, stores);
      for i := 0 to |rows|
        invariant building.Some? && Indices(building.value, stores) == Fill(was, rows[..i])
      {
        assert rows[..i + 1][..i] == rows[..i];
        building := Some(building.value[rows[i].id := rows[i].doc]);
        stores := stores[rows[i].store := rows[i].storeDoc];
      }
      assert rows[..|rows|] == rows;
    }

    /** The whole rebuild, `world(k)` being catalog when page k is read: the page loop, the swap, and
        the clean-up when a step breaks. A rebuild that does not break ends, and then the live index is
        the finished export; one that breaks leaves the live index alone. */
    method Reindex(world: nat -> Cat, breaks: Option<Break>, ghost home: ProductId -> StoreId) returns (r: Result<nat, ()>)
      requires Rebuild.History(world, home)
      modifies this
      ensures
        var x := ExportFrom(world, 0, None, Indices(map[], old(stores)), Budget(breaks), Torn(breaks));
        && building == None
        && (r.Ok? <==> x.finished)
        && (r.Ok? ==> State() == x.x && r.value == |x.visited|)
        && (r.Err? ==> State() == Indices(old(live), x.x.stores))
      ensures breaks.None? ==> r.Ok?
    {
      hide Rebuild.History, LogOk, ExportPage, Fill, ExportFrom, Kept, Ahead;
      ghost var budget, torn := Budget(breaks), Torn(breaks);
      ghost var whole := ExportFrom(world, 0, None, Indices(map[], stores), budget, torn);
      building := Some(map[]);
      var after: Option<ProductId> := None;
      var count, page := 0, 0;
      ghost var visited: seq<ProductId> := [];
      AheadAtStart(world, Indices(map[], stores), budget, torn);
      while true
        invariant building.Some? && live == old(live) && count == |visited| && page <= budget
        invariant From(after) <= ID_SPACE
        invariant breaks.None? ==> PAGE_SIZE * (budget - page) > ID_SPACE - From(after)
        invariant Ahead(world, page, after, Indices(building.value, stores), budget - page, torn, visited, whole)
        decreases ID_SPACE - From(after)
      {
        var fetched := ExportPage(world(page), after);
        ghost var x := Indices(building.value, stores);
        if breaks.Some? && breaks.value.page == page {
          BreaksHere(world, page, after, x, torn, visited, whole);
          BulkWrite(Kept(fetched.rows, breaks.value.written));
          building := None;
          return Err(());
        }
        OnePageOn(world, page, after, x, budget - page, torn, visited, whole, home);
        BulkWrite(fetched.rows);
        count := count + |fetched.rows|;
        visited := visited + Ids(fetched.rows);
        page := page + 1;
        if fetched.next.None? {
          break;
        }
        after := fetched.next;
      }
      live := building.value;
      building := None;
      return Ok(count);
    }

    // ----- any sequence of deliveries and rebuilds -----

    method HandleEvent(e: CatalogEvent, limit: nat) returns (ghost outcome: Outcome)
      modifies this
      ensures State() == Attempted(old(State()), e, outcome) && building.Some? == old(building).Some?
      ensures limit > |old(live)| ==> outcome.Handled?
    {
      match e
      case ProductUpserted(_, _, _, _) =>
        outcome := if limit == 0 then Interrupted({}) else Handled;
        var _ := UpsertProduct(e, limit == 0);
      case ProductDeleted(_, _) =>
        outcome := if limit == 0 then Interrupted({}) else Handled;
        var _ := DeleteProductDoc(e, limit == 0);
      case StoreUpserted(_, _, _, _, _) =>
        var ok, onLive, onBuilding := UpsertStore(e, limit);
        outcome := onLive;
    }

    method Serve(req: Request, ghost sys: System, ghost home: ProductId -> StoreId) returns (ghost m: Move)
      requires State() == sys.x && building == None && LogOk(sys.cat, home) && Fits(sys, req, home)
      modifies this
      ensures State() == Next(sys, m).x && building == None
      ensures Answers(m, req) && Possible(sys, m, home)
    {
      hide LogOk, AllowedBetween, Allowed, ExportFrom;
      match req
      case Commits(op) => m := Commit(op);
      case Handle(e, limit) =>
        ghost var outcome := HandleEvent(e, limit);
        m := Deliver(e, outcome);
      case RebuildNow(between, world, breaks) =>
        WorldIsHistory(sys.cat, between, home);
        var r := Reindex(world, breaks, home);
        m := Move.Reindex(between, Budget(breaks), Torn(breaks));
    }

    /** Whatever deliveries and rebuilds come, while catalog commits, a service that started empty stays in
        sync with every event it handled; and once it has handled every event it shows exactly the catalog,
        if and only if no late upsert brought a deleted product back for good. */
    method ServeAll(requests: seq<Request>, ghost home: ProductId -> StoreId) returns (ghost moves: seq<Move>)
      requires State() == START.x && building == None
      requires forall prior: seq<Move> ::
        |prior| < |requests| && AnswersAll(prior, requests) && AllPossible(prior, home) ==>
        Fits(After(prior), requests[|prior|], home)
      modifies this
      ensures |moves| == |requests| && AnswersAll(moves, requests) && AllPossible(moves, home)
      ensures State() == After(moves).x && InSync(After(moves).cat.log, State(), After(moves).done)
      ensures (forall e :: e in After(moves).cat.log ==> e in After(moves).done) ==>
        && ShowsCatalog(Visible(live), After(moves).cat)
        && (Visible(live) == Expected(After(moves).cat) <==> forall i, p :: !LeftShown(moves, i, p))
    {
      hide LogOk, InSync, Next, Fits, Answers, After, AllPossible, AnswersAll, Visible, Expected, LeftShown, ShowsCatalog;
      moves := [];
      NothingYet(requests, home);
      for i := 0 to |requests|
        invariant |moves| == i && AnswersAll(moves, requests) && AllPossible(moves, home)
        invariant State() == After(moves).x && building == None
      {
        SystemInSync(moves, home);
        ghost var m := Serve(requests[i], After(moves), home);
        AnswersOneMore(moves, m, requests);
        PossibleOneMore(moves, m, home);
        AfterOneMore(moves, m);
        moves := moves + [m];
      }
      SystemInSync(moves, home);
      if forall e :: e in After(moves).cat.log ==> e in After(moves).done {
        SearchConverges(moves, home);
      }
    }
  }

  lemma RenameOneMore(index: Index, s: StoreId, store: StoreDoc, reached: set<ProductId>, p: ProductId)
    requires p in index && p !in reached
    ensures Rename(index, s, store, reached)[p] == index[p]
    ensures Rename(index, s, store, reached + {p})
      == if Stale(index[p], s, store.version) then Rename(index, s, store, reached)[p := Renamed(index[p], store)]
         else Rename(index, s, store, reached)
  {
  }

  /** What the loop still has to do, put behind what it visited, is the whole export. */
  ghost predicate Ahead(
    world: nat -> Cat, k: nat, after: Option<ProductId>, x: Indices, budget: nat, torn: set<ProductId>,
    visited: seq<ProductId>, whole: Export)
  {
    var rest := ExportFrom(world, k, after, x, budget, torn);
    whole == rest.(visited := visited + rest.visited)
  }

  lemma AheadAtStart(world: nat -> Cat, x: Indices, budget: nat, torn: set<ProductId>)
    ensures Ahead(world, 0, None, x, budget, torn, [], ExportFrom(world, 0, None, x, budget, torn))
  {
    hide ExportFrom;
    var whole := ExportFrom(world, 0, None, x, budget, torn);
    assert [] + whole.visited == whole.visited;
  }

  lemma BreaksHere(
    world: nat -> Cat, k: nat, after: Option<ProductId>, x: Indices, torn: set<ProductId>,
    visited: seq<ProductId>, whole: Export)
    requires Ahead(world, k, after, x, 0, torn, visited, whole)
    ensures !whole.finished && whole.x == Fill(x, Kept(ExportPage(world(k), after).rows, torn))
  {
    hide ExportFrom, ExportPage, Fill, Kept;
    StoppedThere(world, k, after, x, torn);
  }

  /** One turn of the loop: either the export is done, or the rest of it starts a full page further on. */
  lemma OnePageOn(
    world: nat -> Cat, k: nat, after: Option<ProductId>, x: Indices, budget: nat, torn: set<ProductId>,
    visited: seq<ProductId>, whole: Export, home: ProductId -> StoreId)
    requires Rebuild.History(world, home) && budget > 0 && From(after) <= ID_SPACE
    requires Ahead(world, k, after, x, budget, torn, visited, whole)
    ensures
      var page := ExportPage(world(k), after);
      var sofar := visited + Ids(page.rows);
      if page.next.None? then whole == Export(Fill(x, page.rows), sofar, k, true)
      else
        && Ahead(world, k + 1, page.next, Fill(x, page.rows), budget - 1, torn, sofar, whole)
        && From(after) + PAGE_SIZE <= From(page.next) <= ID_SPACE
  {
    hide LogOk, ExportPage, Fill, ExportFrom, PageOk;
    var page := ExportPage(world(k), after);
    if page.next.None? {
      LastPage(world, k, after, x, budget, torn);
    } else {
      MorePages(world, k, after, x, budget, torn);
      ExportPageOk(world(k), after, home);
      PageAdvances(world(k), after, page);
      hide Rebuild.History;
      var rest := ExportFrom(world, k + 1, page.next, Fill(x, page.rows), budget - 1, torn);
      assert visited + (Ids(page.rows) + rest.visited) == visited + Ids(page.rows) + rest.visited;
    }
  }
}

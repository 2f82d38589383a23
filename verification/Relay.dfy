/** The transactional outbox and the relay that hands its rows to the broker on a channel that confirms. */
module Relay {
  import opened Prelude

  type EventId = nat

  const WEEK_MS: nat := 604_800_000

  /** `createdAt` is when the enqueueing transaction began, so it says nothing about the order of commits,
      and the rows of one transaction share it. */
  datatype Row = Row(createdAt: int, publishedAt: Option<int>)

  type Table = map<EventId, Row>

  function Pending(rows: Table): set<EventId> { set e | e in rows && rows[e].publishedAt.None? }

  function Min(a: nat, b: nat): nat { if a <= b then a else b }

  function Members(es: seq<EventId>): set<EventId> { set e | e in es }

  predicate DistinctSeq(es: seq<EventId>) { forall i, j :: 0 <= i < j < |es| ==> es[i] != es[j] }

  predicate AllPending(rows: Table, batch: seq<EventId>) { forall i :: 0 <= i < |batch| ==> batch[i] in Pending(rows) }

  /** `batch` is in order of age, with nothing of `left` older than any of it. */
  ghost predicate InOrder(rows: Table, batch: seq<EventId>, left: set<EventId>)
    requires AllPending(rows, batch) && left <= rows.Keys
  {
    && (forall i, j :: 0 <= i < j < |batch| ==> rows[batch[i]].createdAt <= rows[batch[j]].createdAt)
    && (forall i, e :: 0 <= i < |batch| && e in left ==> rows[batch[i]].createdAt <= rows[e].createdAt)
  }

  /** An answer to "the oldest unpublished rows, at most `limit`": rows of one age come in any order, and
      any of them may be the ones left out. */
  ghost predicate Oldest(rows: Table, batch: seq<EventId>, limit: nat) {
    && DistinctSeq(batch) && AllPending(rows, batch) && |batch| == Min(limit, |Pending(rows)|)
    && InOrder(rows, batch, Pending(rows) - Members(batch))
  }

  /** The two statements that mark a batch: stamp its rows, then drop what was published a week ago. */
  function Stamped(rows: Table, ids: set<EventId>, now: int): Table {
    map e | e in rows :: if e in ids then rows[e].(publishedAt := Some(now)) else rows[e]
  }

  predicate OutOfDate(row: Row, now: int) { row.publishedAt.Some? && row.publishedAt.value < now - WEEK_MS }

  function Pruned(rows: Table, now: int): Table { map e | e in rows && !OutOfDate(rows[e], now) :: rows[e] }

  lemma StampedPending(rows: Table, ids: set<EventId>, now: int)
    ensures Pending(Stamped(rows, ids, now)) == Pending(rows) - ids
  {
  }

  lemma PrunedPending(rows: Table, now: int)
    ensures Pending(Pruned(rows, now)) == Pending(rows)
  {
  }

  lemma {:induction false} MembersCount(es: seq<EventId>)
    requires DistinctSeq(es)
    ensures |Members(es)| == |es|
  {
    if es != [] {
      var init, last := es[..|es| - 1], es[|es| - 1];
      MembersCount(init);
      assert last !in Members(init);
      assert Members(es) == Members(init) + {last};
    }
  }

  lemma {:induction false} SomeOldest(rows: Table, left: set<EventId>) returns (oldest: EventId)
    requires left != {} && left <= rows.Keys
    ensures oldest in left && forall f :: f in left ==> rows[oldest].createdAt <= rows[f].createdAt
    decreases |left|
  {
    oldest :| oldest in left;
    if left != {oldest} {
      var rest := left - {oldest};
      assert left == rest + {oldest};
      var other := SomeOldest(rows, rest);
      if rows[other].createdAt < rows[oldest].createdAt {
        oldest := other;
      }
    }
  }

  /** The query half way: the rows taken so far and the rows left. */
  ghost predicate Taking(rows: Table, batch: seq<EventId>, left: set<EventId>) {
    && DistinctSeq(batch) && AllPending(rows, batch) && left == Pending(rows) - Members(batch)
    && |batch| + |left| == |Pending(rows)| && InOrder(rows, batch, left)
  }

  lemma OneMoreMember(batch: seq<EventId>, next: EventId)
    requires DistinctSeq(batch) && next !in Members(batch)
    ensures Members(batch + [next]) == Members(batch) + {next} && DistinctSeq(batch + [next])
  {
    var more := batch + [next];
    forall i, j | 0 <= i < j < |more| ensures more[i] != more[j] {
      assert more[i] == batch[i] && batch[i] in Members(batch);
    }
    assert next == more[|batch|];
    assert forall e :: e in more <==> e in batch || e == next;
  }

  lemma OneMoreInOrder(rows: Table, batch: seq<EventId>, left: set<EventId>, next: EventId)
    requires AllPending(rows, batch) && left <= rows.Keys && InOrder(rows, batch, left)
    requires next in left && next in Pending(rows)
    requires forall f :: f in left ==> rows[next].createdAt <= rows[f].createdAt
    ensures AllPending(rows, batch + [next]) && InOrder(rows, batch + [next], left - {next})
  {
    var more := batch + [next];
    assert forall i :: 0 <= i < |batch| ==> more[i] == batch[i];
  }

  lemma TakeNext(rows: Table, batch: seq<EventId>, left: set<EventId>, next: EventId)
    requires Taking(rows, batch, left) && next in left
    requires forall f :: f in left ==> rows[next].createdAt <= rows[f].createdAt
    ensures Taking(rows, batch + [next], left - {next})
  {
    OneMoreMember(batch, next);
    OneMoreInOrder(rows, batch, left, next);
    hide InOrder, AllPending, DistinctSeq, Members;
    assert Pending(rows) - Members(batch + [next]) == left - {next};
  }

  lemma BatchLeaves(rows: Table, batch: seq<EventId>, limit: nat)
    requires Oldest(rows, batch, limit)
    ensures |Pending(rows) - Members(batch)| == |Pending(rows)| - |batch|
  {
    MembersCount(batch);
    assert Members(batch) <= Pending(rows);
  }

  /** Where a round fails, and which of the messages sent so far the broker kept all the same. A round can
      also fail with its rows already stamped: the second statement is refused, or the answer is lost. */
  datatype Fault =
    | NoFault
    | AtPending
    | AtChannel
    | AtPublish(sent: nat, kept: set<EventId>)
    | AtConfirm(kept: set<EventId>)
    | AtMark
    | AfterStamp

  function Rounds(faults: seq<Fault>): nat {
    if faults == [] then 0 else Rounds(faults[..|faults| - 1]) + if faults[|faults| - 1].NoFault? then 1 else 0
  }

  /** The outbox table of one service, the relay over it and what the broker has durably received. */
  class OutboxRelay {
    const batchSize: nat
    var rows: Table
    var received: seq<EventId>
    ghost var committed: set<EventId>

    /** No committed event is ever lost: it is still pending or the broker has it. */
    ghost predicate Valid()
      reads this
    {
      && batchSize >= 1
      && rows.Keys <= committed
      && (forall e :: e in committed ==> e in Pending(rows) || e in received)
      && (forall e :: e in rows && rows[e].publishedAt.Some? ==> e in received)
    }

    constructor (batchSize: nat)
      requires batchSize >= 1
      ensures Valid() && this.batchSize == batchSize && rows == map[] && received == [] && committed == {}
    {
      this.batchSize := batchSize;
      rows := map[];
      received := [];
      committed := {};
    }

    /** In the caller's transaction: the row appears together with the change it describes, of whatever age
        that transaction is. */
    method Enqueue(e: EventId, createdAt: int)
      requires Valid() && e !in committed
      modifies this`rows, this`committed
      ensures Valid() && committed == old(committed) + {e}
      ensures Pending(rows) == Pending(old(rows)) + {e}
      ensures rows == old(rows)[e := Row(createdAt, None)]
    {
      rows := rows[e := Row(createdAt, None)];
      committed := committed + {e};
    }

    /** `order by created_at limit n`, ties in any order. */
    method PendingRows(limit: nat) returns (batch: seq<EventId>)
      ensures Oldest(rows, batch, limit)
    {
      batch := [];
      var left := Pending(rows);
      while |batch| < limit && left != {}
        invariant Taking(rows, batch, left) && |batch| <= limit
        decreases |left|
      {
        ghost var some := SomeOldest(rows, left);
        var next :| next in left && forall f :: f in left ==> rows[next].createdAt <= rows[f].createdAt;
        TakeNext(rows, batch, left, next);
        batch := batch + [next];
        left := left - {next};
      }
    }

    /** One round of the relay, for the batch the query answers. A round that succeeds hands over exactly
        that batch, in order, and marks it; one that fails leaves every row pending that the broker was
        not confirmed to have. */
    method PublishOnce(fault: Fault, now: int) returns (r: Result<nat, ()>, ghost batch: seq<EventId>)
      requires Valid()
      modifies this`rows, this`received
      ensures Valid() && Oldest(old(rows), batch, batchSize)
      ensures old(received) <= received
      ensures fault.NoFault? ==> r.Ok?
      ensures r.Ok? ==>
        && r.value == |batch| && received == old(received) + batch
        && Pending(rows) == Pending(old(rows)) - Members(batch)
      ensures r.Err? ==>
        if fault.AfterStamp? then
          Pending(rows) == Pending(old(rows)) - Members(batch) && received == old(received) + batch
        else rows == old(rows)
    {
      batch := [];
      var events := PendingRows(batchSize);
      batch := events;
      if fault.AtPending? {
        return Err(()), batch;
      }
      if |events| == 0 {
        return Ok(0), batch;
      }
      if fault.AtChannel? {
        return Err(()), batch;
      }
      var sent := 0;
      var delivered := fault.NoFault? || fault.AtMark? || fault.AfterStamp?;
      while sent < |events|
        invariant 0 <= sent <= |events|
        invariant rows == old(rows) && Valid()
        invariant delivered ==> received == old(received) + events[..sent]
        invariant old(received) <= received
      {
        if fault.AtPublish? && fault.sent == sent {
          return Err(()), batch;
        }
        if delivered || (!fault.AtPending? && !fault.AtChannel? && events[sent] in fault.kept) {
          received := received + [events[sent]];
        }
        sent := sent + 1;
      }
      if fault.AtPublish? || fault.AtConfirm? || fault.AtMark? {
        return Err(()), batch;
      }
      assert received == old(received) + events;
      var marked := MarkPublished(events, now, fault.AfterStamp?);
      return if marked then Ok(|events|) else Err(()), batch;
    }

    /** Stamps a batch the broker has confirmed, then prunes unless that fails; nothing pending is touched
        but the batch. */
    method MarkPublished(ids: seq<EventId>, now: int, fails: bool) returns (ok: bool)
      requires Valid() && forall e :: e in ids ==> e in received
      modifies this`rows
      ensures ok == !fails
      ensures Valid() && Pending(rows) == Pending(old(rows)) - Members(ids)
      ensures forall e :: e in rows ==>
        e in old(rows) && rows[e] == if e in ids then Row(old(rows)[e].createdAt, Some(now)) else old(rows)[e]
      ensures forall e :: e in old(rows) ==>
        var published := old(rows)[e].publishedAt;
        e !in rows <==> !fails && e !in ids && published.Some? && published.value < now - 604_800_000
    {
      StampedPending(rows, Members(ids), now);
      rows := Stamped(rows, Members(ids), now);
      if fails {
        return false;
      }
      PrunedPending(rows, now);
      rows := Pruned(rows, now);
      return true;
    }

    /** The relay loop over any pattern of failures: nothing is lost, and each round that succeeds moves a
        whole batch on, so enough of them empty the table. */
    method Loop(faults: seq<Fault>, now: int)
      requires Valid()
      modifies this`rows, this`received
      ensures Valid()
      ensures |Pending(rows)| + Rounds(faults) * batchSize <= |Pending(old(rows))| || Pending(rows) == {}
      ensures Pending(rows) == {} ==> forall e :: e in committed ==> e in received
    {
      var i := 0;
      assert faults[..0] == [];
      while i < |faults|
        invariant 0 <= i <= |faults|
        invariant Valid()
        invariant |Pending(rows)| + Rounds(faults[..i]) * batchSize <= |Pending(old(rows))| || Pending(rows) == {}
      {
        hide Valid, Oldest;
        ghost var before := rows;
        var r, batch := PublishOnce(faults[i], now);
        EmptyOrBatch(before, batch, batchSize);
        Progress(|Pending(old(rows))|, |Pending(before)|, Rounds(faults[..i]), batchSize, |batch|);
        assert faults[..i + 1][..i] == faults[..i];
        i := i + 1;
      }
      assert faults[..|faults|] == faults;
    }
  }

  /** A batch is full or takes everything. */
  lemma EmptyOrBatch(before: Table, batch: seq<EventId>, limit: nat)
    requires Oldest(before, batch, limit)
    ensures |batch| <= |Pending(before)| && |Pending(before) - Members(batch)| == |Pending(before)| - |batch|
    ensures |batch| == limit || |batch| == |Pending(before)|
  {
    BatchLeaves(before, batch, limit);
  }

  lemma Progress(total: nat, pending: nat, rounds: nat, limit: nat, taken: nat)
    requires pending + rounds * limit <= total || pending == 0
    requires taken <= pending && (taken == limit || taken == pending)
    ensures pending - taken + (rounds + 1) * limit <= total || pending - taken == 0
    ensures pending - taken + rounds * limit <= total || pending - taken == 0
  {
    assert (rounds + 1) * limit == rounds * limit + limit;
  }
}

/** The lease document and the indices it protects, one conditional request at a time, and the control
    flow of a rebuild over them. */
module LeaseService {
  import opened Prelude
  import opened Lease

  /** How the alias update ends: answered, or thrown after the alias moved. */
  datatype SwapEnd = Done | Threw(dropped: bool)

  class Store {
    var now: int
    var lease: Option<Document>
    var next: nat
    var rebuilds: map<Id, Rebuild>
    var indices: set<Id>
    var filling: set<Id>
    var live: Option<Id>

    function State(): Cluster
      reads this
    {
      Cluster(now, lease, next, rebuilds, indices, filling, live)
    }

    constructor ()
      ensures State() == BOOT
    {
      now, lease, next, rebuilds, indices, filling, live := 0, None, 0, map[], {}, {}, None;
    }

    method Enter(r: Id, phase: Phase)
      requires r in rebuilds
      modifies this`rebuilds
      ensures State() == To(old(State()), r, phase)
      ensures rebuilds == old(rebuilds)[r := Rebuild(phase, old(rebuilds)[r].held, old(rebuilds)[r].deadline)]
    {
      rebuilds := rebuilds[r := rebuilds[r].(phase := phase)];
    }

    /** Without `held` the write only creates; with it, it only replaces that very version. Null is a
        version conflict. */
    method WriteLease(r: Id, index: Option<Id>, held: Option<nat>) returns (stamp: Option<nat>)
      modifies this`lease, this`next
      ensures stamp.Some? <==> if held.None? then old(lease).None? else old(lease).Some? && old(lease).value.stamp == held.value
      ensures stamp.Some? ==>
        stamp.value == old(next) && next == old(next) + 1
        && lease == Some(Document(r, index, now + 600_000, stamp.value))
      ensures stamp.None? ==> lease == old(lease) && next == old(next)
    {
      if held.None? {
        if lease.Some? {
          return None;
        }
      } else if lease.None? || lease.value.stamp != held.value {
        return None;
      }
      stamp := Some(next);
      lease := Some(Document(r, index, now + LEASE_MS, next));
      next := next + 1;
    }

    method Delete(x: Id)
      modifies this`indices, this`filling, this`live
      ensures State() == Deleted(old(State()), x)
      ensures indices == old(indices) - {x} && filling == old(filling) - {x}
      ensures live == if old(live) == Some(x) then None else old(live)
    {
      indices, filling := indices - {x}, filling - {x};
      if live == Some(x) {
        live := None;
      }
    }

    /** Takes over an expired lease and drops the index it recorded, and only that. */
    method TakeOver(r: Id) returns (taken: bool)
      requires In(State(), r, Probing) && lease.Some?
      modifies this
      ensures State() == Next(Next(Next(old(State()), Read(r)), Take(r)), Drop(r))
      ensures now == old(now) && (taken <==> old(lease).value.expiresAt <= now)
      ensures taken ==> Holds(State(), r) && In(State(), r, Acquired)
      ensures !taken ==> lease == old(lease) && In(State(), r, Over)
      ensures taken ==> lease == Some(Document(r, None, now + 600_000, old(next))) && next == old(next) + 1
      ensures
        var orphan := if taken && old(lease).value.index.Some? then {old(lease).value.index.value} else {};
        && indices == old(indices) - orphan && filling == old(filling) - orphan
        && live == if old(live).Some? && old(live).value in orphan then None else old(live)
    {
      var current := lease.value;
      if current.expiresAt > now {
        Enter(r, Over);
        return false;
      }
      var stamp := WriteLease(r, None, Some(current.stamp));
      rebuilds := rebuilds[r := Rebuild(Acquired, stamp, now + LEASE_MS)];
      if current.index.Some? {
        Delete(current.index.value);
      }
      return true;
    }

    /** Creates the lease, or takes an expired one over. */
    method Acquire(r: Id) returns (acquired: bool)
      requires r !in rebuilds
      modifies this
      ensures State() == Next(Next(Next(Next(old(State()), Start(r)), Read(r)), Take(r)), Drop(r))
      ensures acquired <==> old(lease).None? || old(lease).value.expiresAt <= now
      ensures acquired ==> Holds(State(), r) && In(State(), r, Acquired)
      ensures !acquired ==> lease == old(lease) && In(State(), r, Over)
      ensures acquired ==> next == old(next) + 1 && lease.Some? && lease.value.owner == r && lease.value.index == None && lease.value.expiresAt == now + 600_000
      ensures
        var orphan := if acquired && old(lease).Some? && old(lease).value.index.Some? then {old(lease).value.index.value} else {};
        && now == old(now) && indices == old(indices) - orphan && filling == old(filling) - orphan
        && live == if old(live).Some? && old(live).value in orphan then None else old(live)
    {
      var created := WriteLease(r, None, None);
      if created.Some? {
        rebuilds := rebuilds[r := Rebuild(Acquired, created, now + LEASE_MS)];
        CreatedAtOnce(old(State()), r);
        return true;
      }
      rebuilds := rebuilds[r := Rebuild(Probing, None, 0)];
      assert State() == Next(old(State()), Start(r));
      hide Next;
      acquired := TakeOver(r);
    }

    /** Every step of a rebuild re-checks its lease; one that lost it must go no further. */
    method KeepLease(r: Id, phase: Phase) returns (kept: bool)
      requires r in rebuilds
      modifies this`lease, this`next, this`rebuilds
      ensures State() == Renewed(old(State()), r, phase)
      ensures kept <==> Holds(old(State()), r)
      ensures kept ==>
        && lease == Some(Document(r, Some(r), now + 600_000, old(next))) && next == old(next) + 1
        && rebuilds == old(rebuilds)[r := Rebuild(phase, Some(old(next)), now + 600_000)]
      ensures !kept ==> lease == old(lease) && In(State(), r, Failing)
    {
      if rebuilds[r].held.None? {
        Enter(r, Failing);
        return false;
      }
      var renewed := WriteLease(r, Some(r), rebuilds[r].held);
      if renewed.None? {
        Enter(r, Failing);
        return false;
      }
      rebuilds := rebuilds[r := Rebuild(phase, renewed, now + LEASE_MS)];
      return true;
    }

    /** Removes the lease only if it is still the one `r` wrote last. */
    method ReleaseLease(r: Id)
      requires In(State(), r, Releasing) || In(State(), r, Swapped)
      modifies this`lease, this`next, this`rebuilds
      ensures State() == Next(old(State()), Release(r))
      ensures In(State(), r, Over)
      ensures if Holds(old(State()), r) then lease == None && next == old(next) + 1
              else lease == old(lease) && next == old(next)
    {
      if lease.Some? && rebuilds[r].held == Some(lease.value.stamp) {
        lease := None;
        next := next + 1;
      }
      Enter(r, Over);
    }

    /** Moves the alias in one step and drops the index it pointed at, unless it throws after the move,
        before or after that drop. */
    method SwapAlias(r: Id, ends: SwapEnd)
      requires In(State(), r, Checked)
      modifies this`live, this`filling, this`indices, this`rebuilds
      ensures State() == Next(old(State()), if ends.Done? then Swap(r) else SwapUnheard(r, ends.dropped))
      ensures r in old(indices) ==>
        && live == Some(r) && filling == old(filling) - {r}
        && indices == old(indices) - (if old(live).Some? && (ends.Done? || ends.dropped) then {old(live).value} else {})
        && In(State(), r, if ends.Done? then Swapped else Failing)
      ensures r !in old(indices) ==>
        live == old(live) && filling == old(filling) && indices == old(indices) && In(State(), r, Failing)
    {
      if r !in indices {
        Enter(r, Failing);
        return;
      }
      var stale := live;
      live := Some(r);
      filling := filling - {r};
      if stale.Some? && (ends.Done? || ends.dropped) {
        indices := indices - {stale.value};
      }
      Enter(r, if ends.Done? then Swapped else Failing);
    }

    /** Before the index exists: it is recorded in the lease first. */
    method Prepare(r: Id, breaks: nat) returns (ready: bool)
      requires In(State(), r, Acquired) && Holds(State(), r)
      modifies this
      ensures ready <==> breaks > 1
      ensures Holds(State(), r) && now == old(now) && live == old(live)
      ensures ready ==> In(State(), r, Filling) && indices == old(indices) + {r} && filling == old(filling) + {r}
      ensures ready ==> next == old(next) + 1 && lease.value.index == Some(r)
      ensures !ready ==> indices == old(indices) && filling == old(filling)
      ensures !ready ==> In(State(), r, Failing) || (In(State(), r, Releasing) && breaks == 0)
    {
      if breaks == 0 {
        Enter(r, Releasing);
        return false;
      }
      var kept := KeepLease(r, Recorded);
      if breaks == 1 {
        Enter(r, Failing);
        return false;
      }
      indices, filling := indices + {r}, filling + {r};
      Enter(r, Filling);
      return true;
    }

    /** The page loop and the last check; each page renews the lease once. */
    method Export(r: Id, pages: nat, breaks: nat) returns (ready: bool)
      requires In(State(), r, Filling) && Holds(State(), r)
      modifies this`lease, this`next, this`rebuilds
      ensures ready <==> breaks > pages + 1
      ensures Holds(State(), r) && In(State(), r, if ready then Checked else Failing)
      ensures ready ==> next == old(next) + pages + 1 && lease == Some(Document(r, Some(r), now + 600_000, next - 1))
    {
      for page := 0 to pages
        invariant In(State(), r, Filling) && Holds(State(), r) && breaks >= page && next == old(next) + page
      {
        if breaks == page {
          Enter(r, Failing);
          return false;
        }
        var kept := KeepLease(r, Filling);
      }
      if breaks == pages {
        Enter(r, Failing);
        return false;
      }
      var kept := KeepLease(r, Checked);
      if breaks == pages + 1 {
        Enter(r, Failing);
        return false;
      }
      return true;
    }

    /** The body of a rebuild up to and including its swap; `breaks` says at which of its steps an
        error is thrown. */
    method Try(r: Id, pages: nat, breaks: nat, ends: SwapEnd) returns (swapped: bool)
      requires In(State(), r, Acquired) && Holds(State(), r) && r !in indices && live != Some(r) && r !in filling
      modifies this
      ensures swapped <==> breaks > pages + 3 && ends.Done?
      ensures Holds(State(), r)
      ensures swapped ==> In(State(), r, Swapped) && next == old(next) + pages + 2
      ensures !swapped ==> In(State(), r, Failing) || (In(State(), r, Releasing) && breaks == 0)
      ensures if breaks > pages + 3 then
          && live == Some(r) && r in indices && filling == old(filling)
          && (swapped ==> indices == old(indices) - (if old(live).Some? then {old(live).value} else {}) + {r})
        else
          && live == old(live)
          && indices == old(indices) + (if breaks > 1 then {r} else {})
          && filling == old(filling) + (if breaks > 1 then {r} else {})
    {
      var ready := Prepare(r, breaks);
      if !ready {
        return false;
      }
      ready := Export(r, pages, breaks - 2);
      if !ready {
        return false;
      }
      SwapAlias(r, ends);
      return ends.Done?;
    }

    /** The error handler, whose deletion may be refused, and the release that follows in any case. */
    method Finish(r: Id, cleanupFails: bool)
      requires Holds(State(), r) && (In(State(), r, Failing) || In(State(), r, Releasing) || In(State(), r, Swapped))
      modifies this
      ensures lease.None? && In(State(), r, Over) && next == old(next) + 1
      ensures
        var was := old(State());
        if In(was, r, Failing) && !cleanupFails then
          indices == Deleted(was, r).indices && filling == Deleted(was, r).filling && live == Deleted(was, r).live
        else indices == was.indices && filling == was.filling && live == was.live
    {
      if rebuilds[r].phase == Failing {
        if !cleanupFails {
          Delete(r);
        }
        Enter(r, Releasing);
      }
      ReleaseLease(r);
    }

    /** A whole rebuild run without interference. It always gives the lease back. The live index moves only
        if the swap is reached, and is lost only if the swap then throws and the clean-up works; the
        building alias keeps the new index only if something before the swap breaks and the clean-up
        breaks too. One that succeeds has written the lease once to take it, once to name its index, once a
        page, once before its swap and once to give it back. */
    method Rebuilding(r: Id, pages: nat, breaks: nat, ends: SwapEnd, cleanupFails: bool) returns (done: bool)
      requires r !in rebuilds && lease.None? && r !in indices && live != Some(r) && r !in filling
      modifies this
      ensures lease.None? && In(State(), r, Over)
      ensures done <==> breaks > pages + 3 && ends.Done?
      ensures live ==
        if breaks <= pages + 3 then old(live) else if done || cleanupFails then Some(r) else None
      ensures filling == old(filling) + (if 1 < breaks <= pages + 3 && cleanupFails then {r} else {})
      ensures r in indices <==> done || (breaks > 1 && cleanupFails)
      ensures breaks <= pages + 3 ==> indices - {r} == old(indices)
      ensures done ==> next == old(next) + pages + 4
      ensures done ==> indices == old(indices) - (if old(live).Some? then {old(live).value} else {}) + {r}
    {
      var acquired := Acquire(r);
      done := Try(r, pages, breaks, ends);
      Finish(r, cleanupFails);
    }
  }

  lemma CreatedAtOnce(c: Cluster, r: Id)
    requires r !in c.rebuilds && c.lease.None?
    ensures Next(Next(Next(Next(c, Start(r)), Read(r)), Take(r)), Drop(r)) == Written(c, r, None, Acquired)
  {
  }
}

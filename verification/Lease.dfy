/** The rebuild lease: one document under compare-and-set, and what it protects.

    A rebuild's index carries the id of the rebuild: index names are never reused. */
module Lease {
  import opened Prelude

  type Id = nat

  const LEASE_MS: nat := 600_000

  /** `stamp` stands for the (sequence number, primary term) pair: no two writes share one. */
  datatype Document = Document(owner: Id, index: Option<Id>, expiresAt: int, stamp: nat)

  datatype Phase =
    | Probing                                      // the lease existed; about to read it
    | Expired(seen: nat, recorded: Option<Id>)     // read an expired lease
    | Dropping(orphan: Id)                         // took it over; about to drop the recorded index
    | Acquired
    | Recorded                                     // the lease names the index, which does not exist yet
    | Filling                                      // the index exists under the building alias
    | Checked                                      // last renewal done; about to swap
    | Swapped
    | Failing                                      // about to delete its own index
    | Releasing
    | Over                                         // finished, gave up or crashed

  datatype Rebuild = Rebuild(phase: Phase, held: Option<nat>, deadline: int)

  datatype Cluster = Cluster(
    now: int,
    lease: Option<Document>,
    next: nat,
    rebuilds: map<Id, Rebuild>,
    indices: set<Id>,
    filling: set<Id>,
    live: Option<Id>)

  const BOOT := Cluster(0, None, 0, map[], {}, {}, None)

  datatype Step =
    | Tick(ms: nat)
    | Start(r: Id)
    | Read(r: Id)
    | Take(r: Id)
    | Drop(r: Id)
    | Renew(r: Id)
    | RenewUnheard(r: Id)    // written, but the answer is lost and the client throws
    | Create(r: Id)
    | Check(r: Id)
    | Swap(r: Id)
    | SwapUnheard(r: Id, dropped: bool)    // the alias moved, but the client throws, before or after the old index went
    | Fail(r: Id)
    | Cleanup(r: Id)
    | CleanupFails(r: Id)    // the deletion in the error handler is itself refused
    | Release(r: Id)
    | Crash(r: Id)

  predicate In(c: Cluster, r: Id, phase: Phase) { r in c.rebuilds && c.rebuilds[r].phase == phase }

  function To(c: Cluster, r: Id, phase: Phase): Cluster
    requires r in c.rebuilds
  {
    c.(rebuilds := c.rebuilds[r := c.rebuilds[r].(phase := phase)])
  }

  /** The stored lease is the very write `r` saw succeed last. */
  predicate Holds(c: Cluster, r: Id) {
    r in c.rebuilds && c.lease.Some? && c.rebuilds[r].held == Some(c.lease.value.stamp)
  }

  /** A successful lease write by `r`: only `r` learns the new stamp. */
  function Written(c: Cluster, r: Id, index: Option<Id>, phase: Phase): Cluster {
    c.(lease := Some(Document(r, index, c.now + LEASE_MS, c.next)),
       next := c.next + 1,
       rebuilds := c.rebuilds[r := Rebuild(phase, Some(c.next), c.now + LEASE_MS)])
  }

  function Renewed(c: Cluster, r: Id, phase: Phase): Cluster
    requires r in c.rebuilds
  {
    if Holds(c, r) then Written(c, r, Some(r), phase) else To(c, r, Failing)
  }

  /** Deleting an index takes it out of every alias. */
  function Deleted(c: Cluster, x: Id): Cluster {
    c.(indices := c.indices - {x}, filling := c.filling - {x}, live := if c.live == Some(x) then None else c.live)
  }

  /** A step that is not possible does nothing. */
  function Next(c: Cluster, step: Step): Cluster {
    match step
    case Tick(ms) => c.(now := c.now + ms)
    case Start(r) =>
      if r in c.rebuilds then c
      else if c.lease.None? then Written(c, r, None, Acquired)
      else c.(rebuilds := c.rebuilds[r := Rebuild(Probing, None, 0)])
    case Read(r) =>
      if !In(c, r, Probing) then c
      else if c.lease.None? || c.lease.value.expiresAt > c.now then To(c, r, Over)
      else To(c, r, Expired(c.lease.value.stamp, c.lease.value.index))
    case Take(r) =>
      if r !in c.rebuilds || !c.rebuilds[r].phase.Expired? then c
      else
        var was := c.rebuilds[r].phase;
        if c.lease.None? || c.lease.value.stamp != was.seen then To(c, r, Over)
        else Written(c, r, None, if was.recorded.Some? then Dropping(was.recorded.value) else Acquired)
    case Drop(r) =>
      if r in c.rebuilds && c.rebuilds[r].phase.Dropping? then To(Deleted(c, c.rebuilds[r].phase.orphan), r, Acquired)
      else c
    case Renew(r) =>
      if In(c, r, Acquired) then Renewed(c, r, Recorded)
      else if In(c, r, Filling) then Renewed(c, r, Filling)
      else c
    case RenewUnheard(r) =>
      if !In(c, r, Acquired) && !In(c, r, Filling) then c
      else if !Holds(c, r) then To(c, r, Failing)
      else
        To(c.(lease := Some(Document(r, Some(r), c.now + LEASE_MS, c.next)), next := c.next + 1), r, Failing)
    case Create(r) =>
      if In(c, r, Recorded) then To(c.(indices := c.indices + {r}, filling := c.filling + {r}), r, Filling) else c
    case Check(r) => if In(c, r, Filling) then Renewed(c, r, Checked) else c
    case Swap(r) =>
      if !In(c, r, Checked) then c
      else if r !in c.indices then To(c, r, Failing)
      else
        var kept := if c.live.Some? then c.indices - {c.live.value} else c.indices;
        To(c.(live := Some(r), filling := c.filling - {r}, indices := kept), r, Swapped)
    case SwapUnheard(r, dropped) =>
      if !In(c, r, Checked) then c
      else if r !in c.indices then To(c, r, Failing)
      else
        var kept := if dropped && c.live.Some? then c.indices - {c.live.value} else c.indices;
        To(c.(live := Some(r), filling := c.filling - {r}, indices := kept), r, Failing)
    case Fail(r) =>
      if In(c, r, Acquired) then To(c, r, Releasing)
      else if In(c, r, Recorded) || In(c, r, Filling) || In(c, r, Checked) then To(c, r, Failing)
      else c
    case Cleanup(r) => if In(c, r, Failing) then To(Deleted(c, r), r, Releasing) else c
    case CleanupFails(r) => if In(c, r, Failing) then To(c, r, Releasing) else c
    case Release(r) =>
      if !In(c, r, Releasing) && !In(c, r, Swapped) then c
      else if Holds(c, r) then To(c.(lease := None, next := c.next + 1), r, Over)
      else To(c, r, Over)
    case Crash(r) => if r in c.rebuilds then To(c, r, Over) else c
  }

  function Run(steps: seq<Step>): Cluster {
    if steps == [] then BOOT else Next(Run(steps[..|steps| - 1]), steps[|steps| - 1])
  }

  // ----- what holds with no assumption about time or crashes -----

  predicate Working(phase: Phase) {
    phase.Dropping? || phase.Acquired? || phase.Recorded? || phase.Filling? || phase.Checked?
  }

  /** What the stored lease says while `r` holds it. */
  predicate Agrees(lease: Document, r: Id, rebuild: Rebuild) {
    && lease.owner == r
    && (Working(rebuild.phase) ==> lease.expiresAt == rebuild.deadline)
    && (rebuild.phase.Dropping? || rebuild.phase.Acquired? ==> lease.index == None)
    && (rebuild.phase.Recorded? || rebuild.phase.Filling? || rebuild.phase.Checked? || rebuild.phase.Swapped? ==>
          lease.index == Some(r))
  }

  ghost predicate RebuildOk(c: Cluster, r: Id)
    requires r in c.rebuilds
  {
    var rebuild := c.rebuilds[r];
    && (rebuild.held.Some? ==> rebuild.held.value < c.next)
    && (rebuild.phase.Probing? || rebuild.phase.Expired? ==> rebuild.held.None?)
    && (Holds(c, r) ==> Agrees(c.lease.value, r, rebuild))
    && (Working(rebuild.phase) ==> rebuild.held.Some? && (Holds(c, r) || rebuild.deadline <= c.now))
    && (rebuild.phase.Expired? ==>
          && rebuild.phase.seen < c.next
          && (c.lease.Some? && c.lease.value.stamp == rebuild.phase.seen ==>
                c.lease.value.index == rebuild.phase.recorded && c.lease.value.expiresAt <= c.now))
  }

  ghost predicate Fenced(c: Cluster) {
    && (c.lease.Some? ==>
          && c.lease.value.stamp < c.next && c.lease.value.owner in c.rebuilds
          && c.rebuilds[c.lease.value.owner].held.Some?
          && (c.lease.value.index.Some? ==> c.lease.value.index.value == c.lease.value.owner))
    && (forall r :: r in c.rebuilds ==> RebuildOk(c, r))
    && (forall r, s :: r in c.rebuilds && s in c.rebuilds && r != s && c.rebuilds[r].held.Some? ==>
          c.rebuilds[r].held != c.rebuilds[s].held)
  }

  lemma ToKeepsFence(c: Cluster, r: Id, phase: Phase)
    requires Fenced(c) && r in c.rebuilds && RebuildOk(To(c, r, phase), r)
    ensures Fenced(To(c, r, phase))
  {
    var d := To(c, r, phase);
    forall s | s in d.rebuilds ensures RebuildOk(d, s) {
      assert RebuildOk(c, s);
    }
  }

  /** The lease is only written over when there is none, by its holder, or once it has expired. */
  lemma WrittenKeepsFence(c: Cluster, r: Id, index: Option<Id>, phase: Phase)
    requires Fenced(c) && (c.lease.None? || Holds(c, r) || c.lease.value.expiresAt <= c.now)
    requires if phase.Dropping? || phase.Acquired? then index == None
             else !phase.Probing? && !phase.Expired? && index == Some(r)
    ensures Fenced(Written(c, r, index, phase))
  {
    var d := Written(c, r, index, phase);
    forall s | s in d.rebuilds ensures RebuildOk(d, s) {
      if s != r {
        assert RebuildOk(c, s);
      }
    }
  }

  lemma UnheardKeepsFence(c: Cluster, r: Id)
    requires Fenced(c) && Holds(c, r) && (In(c, r, Acquired) || In(c, r, Filling))
    ensures Fenced(Next(c, RenewUnheard(r)))
  {
    var d := Next(c, RenewUnheard(r));
    forall s | s in d.rebuilds ensures RebuildOk(d, s) {
      assert RebuildOk(c, s) && RebuildOk(c, r);
    }
  }

  lemma ReleaseKeepsFence(c: Cluster, r: Id)
    requires Fenced(c) && Holds(c, r) && !Working(c.rebuilds[r].phase)
    ensures Fenced(c.(lease := None, next := c.next + 1))
  {
    var d := c.(lease := None, next := c.next + 1);
    forall s | s in d.rebuilds ensures RebuildOk(d, s) {
      assert RebuildOk(c, s);
    }
  }

  lemma IndicesKeepFence(c: Cluster, indices: set<Id>, filling: set<Id>, live: Option<Id>)
    requires Fenced(c)
    ensures Fenced(c.(indices := indices, filling := filling, live := live))
  {
    var d := c.(indices := indices, filling := filling, live := live);
    forall s | s in d.rebuilds ensures RebuildOk(d, s) {
      assert RebuildOk(c, s);
    }
  }

  lemma TickKeepsFence(c: Cluster, ms: nat)
    requires Fenced(c)
    ensures Fenced(Next(c, Tick(ms)))
  {
    var d := Next(c, Tick(ms));
    forall s | s in d.rebuilds ensures RebuildOk(d, s) {
      assert RebuildOk(c, s);
    }
  }

  lemma ProbeKeepsFence(c: Cluster, r: Id)
    requires Fenced(c) && r !in c.rebuilds
    ensures Fenced(c.(rebuilds := c.rebuilds[r := Rebuild(Probing, None, 0)]))
  {
    var d := c.(rebuilds := c.rebuilds[r := Rebuild(Probing, None, 0)]);
    forall s | s in d.rebuilds ensures RebuildOk(d, s) {
      if s != r {
        assert RebuildOk(c, s);
      }
    }
  }

  lemma RenewedKeepsFence(c: Cluster, r: Id, phase: Phase)
    requires Fenced(c) && r in c.rebuilds && (phase.Recorded? || phase.Filling? || phase.Checked?)
    ensures Fenced(Renewed(c, r, phase))
  {
    assert RebuildOk(c, r);
    hide Fenced;
    if Holds(c, r) {
      WrittenKeepsFence(c, r, Some(r), phase);
    } else {
      ToKeepsFence(c, r, Failing);
    }
  }

  lemma StepKeepsFence(c: Cluster, step: Step)
    requires Fenced(c)
    ensures Fenced(Next(c, step))
  {
    match step
    case Tick(ms) => TickKeepsFence(c, ms);
    case Start(r) =>
      hide Fenced;
      if r !in c.rebuilds {
        if c.lease.None? {
          WrittenKeepsFence(c, r, None, Acquired);
        } else {
          ProbeKeepsFence(c, r);
        }
      }
    case Renew(r) =>
      hide Fenced;
      if In(c, r, Acquired) {
        RenewedKeepsFence(c, r, Recorded);
      } else if In(c, r, Filling) {
        RenewedKeepsFence(c, r, Filling);
      }
    case Check(r) =>
      hide Fenced;
      if In(c, r, Filling) {
        RenewedKeepsFence(c, r, Checked);
      }
    case Read(r) => ReadKeepsFence(c, r);
    case Take(r) => TakeKeepsFence(c, r);
    case RenewUnheard(r) =>
      assert r in c.rebuilds ==> RebuildOk(c, r);
      hide Fenced;
      if In(c, r, Acquired) || In(c, r, Filling) {
        if Holds(c, r) {
          UnheardKeepsFence(c, r);
        } else {
          ToKeepsFence(c, r, Failing);
        }
      }
    case Release(r) => ReleaseStepKeepsFence(c, r);
    case _ => IndexStepKeepsFence(c, step);
  }

  lemma ReadKeepsFence(c: Cluster, r: Id)
    requires Fenced(c)
    ensures Fenced(Next(c, Read(r)))
  {
    if In(c, r, Probing) {
      assert RebuildOk(c, r);
      if c.lease.None? || c.lease.value.expiresAt > c.now {
        ToKeepsFence(c, r, Over);
      } else {
        ToKeepsFence(c, r, Expired(c.lease.value.stamp, c.lease.value.index));
      }
    }
  }

  lemma TakeKeepsFence(c: Cluster, r: Id)
    requires Fenced(c)
    ensures Fenced(Next(c, Take(r)))
  {
    if r in c.rebuilds && c.rebuilds[r].phase.Expired? {
      assert RebuildOk(c, r);
      hide Fenced;
      var was := c.rebuilds[r].phase;
      if c.lease.None? || c.lease.value.stamp != was.seen {
        ToKeepsFence(c, r, Over);
      } else {
        WrittenKeepsFence(c, r, None, if was.recorded.Some? then Dropping(was.recorded.value) else Acquired);
      }
    }
  }

  lemma ReleaseStepKeepsFence(c: Cluster, r: Id)
    requires Fenced(c)
    ensures Fenced(Next(c, Release(r)))
  {
    if In(c, r, Releasing) || In(c, r, Swapped) {
      assert RebuildOk(c, r);
      if Holds(c, r) {
        ReleaseKeepsFence(c, r);
        hide Fenced;
        ToKeepsFence(c.(lease := None, next := c.next + 1), r, Over);
      } else {
        hide Fenced;
        ToKeepsFence(c, r, Over);
      }
    }
  }

  predicate TouchesIndices(step: Step) {
    step.Drop? || step.Create? || step.Swap? || step.SwapUnheard? || step.Fail? || step.Cleanup?
    || step.CleanupFails? || step.Crash?
  }

  /** These never write the lease; at most they move their own rebuild on. */
  lemma IndexStepShape(c: Cluster, step: Step)
    requires TouchesIndices(step)
    ensures
      var d := Next(c, step);
      var e := c.(indices := d.indices, filling := d.filling, live := d.live);
      d == e || (step.r in c.rebuilds && !d.rebuilds[step.r].phase.Expired? && d == To(e, step.r, d.rebuilds[step.r].phase)
                 && (Working(d.rebuilds[step.r].phase) ==> Working(c.rebuilds[step.r].phase))
                 && (d.rebuilds[step.r].phase.Acquired? ==> c.rebuilds[step.r].phase.Dropping?)
                 && (d.rebuilds[step.r].phase.Filling? ==> c.rebuilds[step.r].phase.Recorded?)
                 && (d.rebuilds[step.r].phase.Swapped? ==> c.rebuilds[step.r].phase.Checked?)
                 && !d.rebuilds[step.r].phase.Probing? && !d.rebuilds[step.r].phase.Dropping?
                 && !d.rebuilds[step.r].phase.Recorded? && !d.rebuilds[step.r].phase.Checked?)
  {
  }

  lemma IndexStepKeepsFence(c: Cluster, step: Step)
    requires Fenced(c) && TouchesIndices(step)
    ensures Fenced(Next(c, step))
  {
    IndexStepShape(c, step);
    hide Next;
    var d := Next(c, step);
    var e := c.(indices := d.indices, filling := d.filling, live := d.live);
    IndicesKeepFence(c, d.indices, d.filling, d.live);
    if d != e {
      assert RebuildOk(c, step.r);
      ToKeepsFence(e, step.r, d.rebuilds[step.r].phase);
    }
  }

  lemma {:induction false} FenceInvariant(steps: seq<Step>)
    ensures Fenced(Run(steps))
  {
    hide Next;
    if steps != [] {
      hide Fenced;
      FenceInvariant(steps[..|steps| - 1]);
      StepKeepsFence(Run(steps[..|steps| - 1]), steps[|steps| - 1]);
    }
  }

  /** In every reachable state at most one rebuild holds the lease. */
  lemma AtMostOneHolder(steps: seq<Step>, r: Id, s: Id)
    requires Holds(Run(steps), r) && Holds(Run(steps), s)
    ensures r == s
  {
    FenceInvariant(steps);
  }

  /** Having once held it, `r` does not now. */
  predicate Lost(c: Cluster, r: Id) {
    r in c.rebuilds && c.rebuilds[r].held.Some? && !Holds(c, r)
  }

  /** A lost lease stays lost, and its old holder can neither renew nor remove whatever replaced it. */
  lemma LostForGood(c: Cluster, step: Step, r: Id)
    requires Fenced(c) && Lost(c, r)
    ensures Lost(Next(c, step), r)
    ensures !step.Tick? && step.r == r ==> Next(c, step).lease == c.lease
    ensures (step.Renew? || step.Check?) && step.r == r && In(c, r, Filling) ==> In(Next(c, step), r, Failing)
  {
    assert RebuildOk(c, r);
    hide Deleted;
  }

  /** A takeover by `s` ends the hold of everyone else. */
  lemma TakeoverFences(c: Cluster, s: Id, r: Id)
    requires Fenced(c) && r != s && r in c.rebuilds
    requires Next(c, Take(s)).lease != c.lease
    ensures Holds(Next(c, Take(s)), s) && !Holds(Next(c, Take(s)), r)
    ensures Holds(c, r) ==> Lost(Next(c, Take(s)), r) && c.lease.value.expiresAt <= c.now
  {
    assert RebuildOk(c, r) && RebuildOk(c, s);
  }

  // ----- with timely creation and swap -----

  /** Creating the index and swapping follow their renewal within the lease time. */
  predicate InTime(c: Cluster, step: Step) {
    match step
    case Create(r) => In(c, r, Recorded) ==> c.now < c.rebuilds[r].deadline
    case Swap(r) => In(c, r, Checked) ==> c.now < c.rebuilds[r].deadline
    case SwapUnheard(r, _) => In(c, r, Checked) ==> c.now < c.rebuilds[r].deadline
    case _ => true
  }

  lemma InTimeStillHolds(c: Cluster, step: Step)
    requires Fenced(c) && InTime(c, step)
    ensures step.Create? && In(c, step.r, Recorded) ==> Holds(c, step.r)
    ensures (step.Swap? || step.SwapUnheard?) && In(c, step.r, Checked) ==> Holds(c, step.r)
  {
    if !step.Tick? && step.r in c.rebuilds {
      assert RebuildOk(c, step.r);
    }
  }

  /** The stored lease names `x`, or its holder is about to drop it. */
  predicate Tracked(c: Cluster, x: Id) {
    && c.lease.Some?
    && (c.lease.value.index == Some(x)
        || (Holds(c, c.lease.value.owner) && In(c, c.lease.value.owner, Dropping(x))))
  }

  ghost predicate FillingOk(c: Cluster) {
    forall x :: x in c.filling ==>
      && Tracked(c, x)
      && x in c.rebuilds
      && var phase := c.rebuilds[x].phase; phase.Filling? || phase.Checked? || phase.Failing? || phase.Releasing? || phase.Over?
  }

  /** The holder of the lease leaves an index behind: it crashes, or loses its lease, with a drop still to
      do; or it gives the lease back although the clean-up of its own index failed. */
  predicate Strands(c: Cluster, step: Step) {
    && c.lease.Some? && Holds(c, c.lease.value.owner)
    && var r := c.lease.value.owner;
    && var phase := c.rebuilds[r].phase;
    || (phase.Dropping? && phase.orphan in c.filling
        && (step == Crash(r) || (step.Take? && Next(c, step).lease != c.lease)))
    || (phase.Releasing? && r in c.filling && step == Release(r))
  }

  /** The facts about whoever steps and whoever owns the lease. */
  ghost predicate Known(c: Cluster, step: Step) {
    && (!step.Tick? && step.r in c.rebuilds ==> RebuildOk(c, step.r))
    && (c.lease.Some? ==>
          && c.lease.value.owner in c.rebuilds && RebuildOk(c, c.lease.value.owner)
          && (c.lease.value.index.Some? ==> c.lease.value.index.value == c.lease.value.owner))
    && (step.Create? && In(c, step.r, Recorded) ==> Holds(c, step.r))
  }

  lemma IndexStepKeepsFilling(c: Cluster, step: Step)
    requires Known(c, step) && FillingOk(c) && !Strands(c, step) && TouchesIndices(step)
    ensures FillingOk(Next(c, step))
  {
  }

  lemma RenewalKeepsFilling(c: Cluster, step: Step)
    requires Known(c, step) && FillingOk(c) && (step.Renew? || step.RenewUnheard? || step.Check?)
    ensures FillingOk(Next(c, step))
  {
  }

  lemma OtherStepKeepsFilling(c: Cluster, step: Step)
    requires Known(c, step) && FillingOk(c) && !Strands(c, step)
    requires step.Tick? || step.Start? || step.Read? || step.Take? || step.Release?
    ensures FillingOk(Next(c, step))
  {
  }

  lemma StepKeepsFilling(c: Cluster, step: Step)
    requires Fenced(c) && FillingOk(c) && InTime(c, step) && !Strands(c, step)
    ensures FillingOk(Next(c, step))
  {
    InTimeStillHolds(c, step);
    assert Known(c, step);
    hide Fenced, FillingOk, Next, Known, InTime, Strands;
    if TouchesIndices(step) {
      IndexStepKeepsFilling(c, step);
    } else if step.Renew? || step.RenewUnheard? || step.Check? {
      RenewalKeepsFilling(c, step);
    } else {
      OtherStepKeepsFilling(c, step);
    }
  }

  /** The condition is exact: stranding an index leaves it under the building alias with nothing to
      remember it by. */
  lemma StrandingLosesTrack(c: Cluster, step: Step)
    requires Fenced(c) && FillingOk(c) && InTime(c, step)
    ensures FillingOk(Next(c, step)) <==> !Strands(c, step)
  {
    if Strands(c, step) {
      var r := c.lease.value.owner;
      var x := if c.rebuilds[r].phase.Dropping? then c.rebuilds[r].phase.orphan else r;
      assert RebuildOk(c, c.lease.value.owner) && RebuildOk(c, step.r);
      assert x in Next(c, step).filling && !Tracked(Next(c, step), x);
    } else {
      StepKeepsFilling(c, step);
    }
  }

  /** Over a whole run: the index being filled is remembered throughout if and only if no step strands one. */
  lemma TrackedThroughoutIff(steps: seq<Step>)
    requires AllInTime(steps)
    ensures (forall k :: 0 <= k <= |steps| ==> FillingOk(Run(steps[..k]))) <==> NothingStrands(steps)
  {
    hide Next, InTime, Strands, FillingOk, Fenced;
    if NothingStrands(steps) {
      forall k | 0 <= k <= |steps| ensures FillingOk(Run(steps[..k])) {
        PrefixInTime(steps, k);
        forall i | 0 <= i < k ensures !Strands(Run(steps[..k][..i]), steps[..k][i]) {
          assert steps[..k][..i] == steps[..i];
        }
        FillingInvariant(steps[..k]);
      }
    } else {
      var k :| 0 <= k < |steps| && Strands(Run(steps[..k]), steps[k]);
      FenceInvariant(steps[..k]);
      if FillingOk(Run(steps[..k])) {
        StrandingLosesTrack(Run(steps[..k]), steps[k]);
        assert steps[..k + 1][..k] == steps[..k];
        assert !FillingOk(Run(steps[..k + 1]));
      }
    }
  }

  lemma PrefixInTime(steps: seq<Step>, k: nat)
    requires AllInTime(steps) && k <= |steps|
    ensures AllInTime(steps[..k])
  {
    hide Run, InTime;
    forall i | 0 <= i < k ensures InTime(Run(steps[..k][..i]), steps[..k][i]) {
      assert steps[..k][..i] == steps[..i];
    }
  }

  /** At most one index is being filled at any time, so the building alias never has two targets. */
  lemma AtMostOneFilling(c: Cluster, x: Id, y: Id)
    requires Fenced(c) && FillingOk(c) && x in c.filling && y in c.filling
    ensures x == y
  {
    assert RebuildOk(c, c.lease.value.owner);
  }

  ghost predicate AllInTime(steps: seq<Step>) {
    forall k :: 0 <= k < |steps| ==> InTime(Run(steps[..k]), steps[k])
  }

  ghost predicate NothingStrands(steps: seq<Step>) {
    forall k :: 0 <= k < |steps| ==> !Strands(Run(steps[..k]), steps[k])
  }

  lemma {:induction false} FillingInvariant(steps: seq<Step>)
    requires AllInTime(steps) && NothingStrands(steps)
    ensures FillingOk(Run(steps))
  {
    hide Next, InTime, Strands;
    if steps != [] {
      hide Fenced, FillingOk;
      var init := steps[..|steps| - 1];
      forall k | 0 <= k < |init| ensures InTime(Run(init[..k]), init[k]) && !Strands(Run(init[..k]), init[k]) {
        assert init[..k] == steps[..k];
      }
      FillingInvariant(init);
      FenceInvariant(init);
      StepKeepsFilling(Run(init), steps[|steps| - 1]);
    }
  }

  // ----- the live index -----

  ghost predicate LiveOk(c: Cluster) {
    && (c.live.Some? ==>
          && c.live.value in c.indices && c.live.value !in c.filling && c.live.value in c.rebuilds
          && var phase := c.rebuilds[c.live.value].phase;
          phase.Swapped? || phase.Failing? || phase.Releasing? || phase.Over?)
    && c.filling <= c.indices
  }

  predicate Loses(c: Cluster, step: Step) {
    && c.live.Some?
    && ((step.Drop? && In(c, step.r, Dropping(c.live.value)))
        || (step.Cleanup? && In(c, step.r, Failing) && c.live.value == step.r))
  }

  /** The alias always points at an index that exists. It only ever moves by a swap, and is only ever lost
      when a takeover drops the index it points at or a rebuild whose swap threw cleans up. */
  lemma LiveMovesOnlyBySwap(c: Cluster, step: Step)
    requires LiveOk(c)
    ensures LiveOk(Next(c, step))
    ensures c.live.Some? ==> (Next(c, step).live.None? <==> Loses(c, step))
    ensures Next(c, step).live.Some? && Next(c, step).live != c.live ==>
      (step.Swap? || step.SwapUnheard?) && In(c, step.r, Checked) && Next(c, step).live.value == step.r
  {
  }

  lemma {:induction false} LiveInvariant(steps: seq<Step>)
    ensures LiveOk(Run(steps))
  {
    hide Next;
    if steps != [] {
      hide LiveOk, Loses;
      LiveInvariant(steps[..|steps| - 1]);
      LiveMovesOnlyBySwap(Run(steps[..|steps| - 1]), steps[|steps| - 1]);
    }
  }

  lemma DropStartsByTakeover(c: Cluster, step: Step, r: Id)
    requires Fenced(c) && r in Next(c, step).rebuilds && Next(c, step).rebuilds[r].phase.Dropping?
    requires r in c.rebuilds ==> c.rebuilds[r].phase != Next(c, step).rebuilds[r].phase
    ensures
      var x := Next(c, step).rebuilds[r].phase.orphan;
      && step == Take(r) && Next(c, step).lease != c.lease && Next(c, step).live == c.live
      && c.lease.Some? && c.lease.value.index == Some(x) && Lost(Next(c, step), x)
  {
    if !step.Tick? && step.r in c.rebuilds {
      assert RebuildOk(c, step.r);
    }
    hide Deleted;
  }

  // ----- where a dropping takeover and a failing swap come from -----

  predicate Ends(step: Step, r: Id) { step == Crash(r) || step == Drop(r) }

  /** Step `k` took over, for `r`, a lease that named `x`, and `r` has neither dropped nor crashed since. */
  ghost predicate TookOver(steps: seq<Step>, k: nat, r: Id, x: Id) {
    && k < |steps| && steps[k] == Take(r)
    && var c := Run(steps[..k]);
    && Next(c, Take(r)).lease != c.lease && c.lease.Some? && c.lease.value.index == Some(x)
    && forall i :: k < i < |steps| ==> !Ends(steps[i], r)
  }

  lemma TookOverLonger(steps: seq<Step>, last: Step, k: nat, r: Id, x: Id)
    requires k < |steps|
    ensures TookOver(steps + [last], k, r, x) <==> TookOver(steps, k, r, x) && !Ends(last, r)
  {
    hide Next, Run, Ends;
    var more := steps + [last];
    assert more[..k] == steps[..k] && more[k] == steps[k];
    assert more[|steps|] == last;
    assert forall i :: k < i < |steps| ==> more[i] == steps[i];
  }

  /** A rebuild about to drop `x` is one that took `x` over; `x` lost its lease for good, so in time it has
      not gone live since. */
  lemma {:induction false} DropHasOrigin(steps: seq<Step>, r: Id, x: Id) returns (k: nat)
    requires AllInTime(steps) && In(Run(steps), r, Dropping(x))
    ensures Lost(Run(steps), x) && TookOver(steps, k, r, x)
    ensures Run(steps).live == Some(x) ==> Run(steps[..k]).live == Some(x)
  {
    hide Next, Fenced, InTime, LiveOk, Loses, TookOver;
    var init, last := steps[..|steps| - 1], steps[|steps| - 1];
    var c := Run(init);
    assert steps == init + [last];
    PrefixInTime(steps, |init|);
    assert InTime(c, last) by { assert steps[..|init|] == init; }
    FenceInvariant(init);
    LiveInvariant(init);
    LiveMovesOnlyBySwap(c, last);
    if In(c, r, Dropping(x)) {
      k := DropHasOrigin(init, r, x);
      hide AllInTime, Run;
      assert init[..k] == steps[..k] by { TookOverIsInside(init, k, r, x); }
      LostForGood(c, last, x);
      InTimeStillHolds(c, last);
      StaysDropping(c, last, r, x);
      TookOverIsInside(init, k, r, x);
      TookOverLonger(init, last, k, r, x);
    } else {
      k := |init|;
      DropStartsByTakeover(c, last, r);
      assert steps[..k] == init;
      TookOverNow(init, r, x);
    }
  }

  lemma TookOverIsInside(steps: seq<Step>, k: nat, r: Id, x: Id)
    requires TookOver(steps, k, r, x)
    ensures k < |steps|
  {
  }

  lemma TookOverNow(steps: seq<Step>, r: Id, x: Id)
    requires var c := Run(steps); Next(c, Take(r)).lease != c.lease && c.lease.Some? && c.lease.value.index == Some(x)
    ensures TookOver(steps + [Take(r)], |steps|, r, x)
  {
    assert (steps + [Take(r)])[..|steps|] == steps;
  }

  lemma StaysDropping(c: Cluster, step: Step, r: Id, x: Id)
    requires In(c, r, Dropping(x))
    ensures In(Next(c, step), r, Dropping(x)) <==> !Ends(step, r)
  {
  }

  lemma {:induction false} OriginStillDrops(steps: seq<Step>, k: nat, r: Id, x: Id)
    requires TookOver(steps, k, r, x)
    ensures In(Run(steps), r, Dropping(x))
  {
    hide Next, Fenced;
    var init, last := steps[..|steps| - 1], steps[|steps| - 1];
    assert steps == init + [last];
    if k < |init| {
      TookOverLonger(init, last, k, r, x);
      OriginStillDrops(init, k, r, x);
      StaysDropping(Run(init), last, r, x);
    } else {
      assert steps[..k] == init;
      FenceInvariant(init);
      TakeStartsDrop(Run(init), r, x);
    }
  }

  lemma TakeStartsDrop(c: Cluster, r: Id, x: Id)
    requires Fenced(c) && Next(c, Take(r)).lease != c.lease && c.lease.Some? && c.lease.value.index == Some(x)
    ensures In(Next(c, Take(r)), r, Dropping(x))
  {
    assert r in c.rebuilds ==> RebuildOk(c, r);
  }

  predicate EndsFailing(step: Step, r: Id) { step == Crash(r) || step == Cleanup(r) || step == CleanupFails(r) }

  /** Step `k` was a swap of `r` that moved the alias and threw, and `r` has not cleaned up since. */
  ghost predicate SwapThrew(steps: seq<Step>, k: nat, r: Id) {
    && k < |steps| && steps[k].SwapUnheard? && steps[k].r == r
    && In(Run(steps[..k]), r, Checked) && r in Run(steps[..k]).indices
    && forall i :: k < i < |steps| ==> !EndsFailing(steps[i], r)
  }

  lemma SwapThrewLonger(steps: seq<Step>, last: Step, k: nat, r: Id)
    requires k < |steps|
    ensures SwapThrew(steps + [last], k, r) <==> SwapThrew(steps, k, r) && !EndsFailing(last, r)
  {
    hide Next, Run, EndsFailing;
    var more := steps + [last];
    assert more[..k] == steps[..k] && more[k] == steps[k];
    assert more[|steps|] == last;
    assert forall i :: k < i < |steps| ==> more[i] == steps[i];
  }

  lemma FailingSteps(c: Cluster, step: Step, r: Id)
    ensures In(c, r, Failing) ==> (In(Next(c, step), r, Failing) <==> !EndsFailing(step, r))
    ensures LiveOk(c) && In(Next(c, step), r, Failing) && Next(c, step).live == Some(r) ==>
      (In(c, r, Failing) && c.live == Some(r))
      || (step.SwapUnheard? && step.r == r && In(c, r, Checked) && r in c.indices)
  {
  }

  lemma {:induction false} FailingLiveHasOrigin(steps: seq<Step>, r: Id) returns (k: nat)
    requires In(Run(steps), r, Failing) && Run(steps).live == Some(r)
    ensures SwapThrew(steps, k, r)
  {
    hide Next, LiveOk;
    var init, last := steps[..|steps| - 1], steps[|steps| - 1];
    assert steps == init + [last];
    LiveInvariant(init);
    FailingSteps(Run(init), last, r);
    if In(Run(init), r, Failing) && Run(init).live == Some(r) {
      k := FailingLiveHasOrigin(init, r);
      SwapThrewLonger(init, last, k, r);
    } else {
      k := |init|;
      assert steps[..k] == init;
    }
  }

  lemma {:induction false} ThrownSwapStillFails(steps: seq<Step>, k: nat, r: Id)
    requires SwapThrew(steps, k, r)
    ensures In(Run(steps), r, Failing)
  {
    var init, last := steps[..|steps| - 1], steps[|steps| - 1];
    assert steps == init + [last];
    if k < |init| {
      hide Next;
      SwapThrewLonger(init, last, k, r);
      ThrownSwapStillFails(init, k, r);
      FailingSteps(Run(init), last, r);
    } else {
      assert steps[..k] == init;
      assert Run(steps) == Next(Run(init), last);
    }
  }

  // ----- exactly when the live index is lost -----

  /** A takeover of a lease that named the index live then and now reaches its drop. */
  ghost predicate TakeoverLoses(steps: seq<Step>, last: Step) {
    last.Drop? && Run(steps).live.Some?
    && exists k: nat :: TookOver(steps, k, last.r, Run(steps).live.value) && Run(steps[..k]).live == Run(steps).live
  }

  /** A rebuild whose swap moved the alias and threw goes on to its clean-up. */
  ghost predicate CleanupLoses(steps: seq<Step>, last: Step) {
    last.Cleanup? && Run(steps).live == Some(last.r) && exists k: nat :: SwapThrew(steps, k, last.r)
  }

  /** In time, after any run whatsoever, a step loses the live index if and only if it is the drop of a
      takeover that found the lease naming that index, or the clean-up after a swap that threw. */
  lemma LiveIsLostIff(steps: seq<Step>, last: Step)
    requires AllInTime(steps) && Run(steps).live.Some?
    ensures Next(Run(steps), last).live.None? <==> TakeoverLoses(steps, last) || CleanupLoses(steps, last)
  {
    hide Next, LiveOk, AllInTime, TookOver, SwapThrew;
    var c := Run(steps);
    LiveInvariant(steps);
    LiveMovesOnlyBySwap(c, last);
    hide Run;
    if last.Drop? {
      if In(c, last.r, Dropping(c.live.value)) {
        var k := DropHasOrigin(steps, last.r, c.live.value);
      }
      if k: nat :| TookOver(steps, k, last.r, c.live.value) {
        OriginStillDrops(steps, k, last.r, c.live.value);
      }
    } else if last.Cleanup? && c.live == Some(last.r) {
      if In(c, last.r, Failing) {
        var k := FailingLiveHasOrigin(steps, last.r);
      }
      if k: nat :| SwapThrew(steps, k, last.r) {
        ThrownSwapStillFails(steps, k, last.r);
      }
    }
  }

  /** So in time, a run in which neither ever happens keeps a live index from the first swap on: through
      crashes, lost replies, failed clean-ups, failed rebuilds and takeovers of anything else. */
  lemma {:induction false} LiveSurvives(steps: seq<Step>)
    requires AllInTime(steps)
    requires forall k :: 0 <= k < |steps| ==> !TakeoverLoses(steps[..k], steps[k]) && !CleanupLoses(steps[..k], steps[k])
    ensures forall k :: 0 <= k <= |steps| && Run(steps[..k]).live.Some? ==> Run(steps).live.Some?
  {
    hide Next, InTime, TakeoverLoses, CleanupLoses;
    if steps != [] {
      var init, last := steps[..|steps| - 1], steps[|steps| - 1];
      PrefixInTime(steps, |init|);
      forall k | 0 <= k < |init| ensures !TakeoverLoses(init[..k], init[k]) && !CleanupLoses(init[..k], init[k]) {
        assert init[..k] == steps[..k];
      }
      LiveSurvives(init);
      assert steps[..|init|] == init;
      if Run(init).live.Some? {
        LiveIsLostIff(init, last);
      }
      assert Run(steps) == Next(Run(init), last);
      hide Run;
      forall k | 0 <= k <= |steps| && Run(steps[..k]).live.Some? ensures Run(steps).live.Some? {
        if k < |steps| {
          assert init[..k] == steps[..k];
        } else {
          assert steps[..k] == steps;
        }
      }
    }
  }

  /** For a takeover that succeeds, what a caller can check beforehand: its drop loses the live index if
      and only if the lease it took named it. One that crashes before its drop spares it. */
  lemma TakeoverDropsLive(c: Cluster, r: Id)
    requires Fenced(c) && LiveOk(c) && c.live.Some? && Next(c, Take(r)).lease != c.lease
    ensures Next(Next(c, Take(r)), Drop(r)).live.None? <==> c.lease.value.index == c.live
    ensures Next(Next(c, Take(r)), Crash(r)).live == c.live
  {
    assert r in c.rebuilds ==> RebuildOk(c, r);
  }

  /** A rebuild about to swap that throws cleans up after itself: the live index is lost if and only if
      the alias had moved before it threw. */
  lemma FailureAfterSwapDropsLive(c: Cluster, r: Id, thrown: Step)
    requires LiveOk(c) && c.live.Some? && In(c, r, Checked) && r in c.indices
    requires thrown == Fail(r) || (thrown.SwapUnheard? && thrown.r == r)
    ensures Next(Next(c, thrown), Cleanup(r)).live.None? <==> thrown.SwapUnheard?
    ensures thrown == Fail(r) ==> Next(Next(c, thrown), Cleanup(r)).live == c.live
    ensures thrown.SwapUnheard? ==> Next(Next(c, thrown), CleanupFails(r)).live == Some(r)
  {
  }

  // ----- concrete runs -----

  lemma Then(steps: seq<Step>, c: Cluster, step: Step) returns (more: seq<Step>, d: Cluster)
    requires Run(steps) == c
    ensures more == steps + [step] && d == Next(c, step) && Run(more) == d
  {
    more, d := steps + [step], Next(c, step);
    assert more[..|steps|] == steps;
  }

  const FILLING := [Start(0), Renew(0), Create(0)]
  const SWAPPED := FILLING + [Check(0), Swap(0)]
  const TAKEOVER := [Tick(LEASE_MS), Start(1), Read(1), Take(1)]
  const AGAIN := [Tick(LEASE_MS), Start(2), Read(2), Take(2), Renew(2), Create(2)]

  lemma FillingRun()
    ensures Run(FILLING) == Cluster(
      0, Some(Document(0, Some(0), LEASE_MS, 1)), 2, map[0 := Rebuild(Filling, Some(1), LEASE_MS)], {0}, {0}, None)
  {
    hide Run;
    var s, c := Boot();
    s, c := Then(s, c, Start(0));
    s, c := Then(s, c, Renew(0));
    s, c := Then(s, c, Create(0));
    assert s == FILLING;
  }

  lemma SwappedRun()
    ensures Run(SWAPPED) == Cluster(
      0, Some(Document(0, Some(0), LEASE_MS, 2)), 3, map[0 := Rebuild(Swapped, Some(2), LEASE_MS)], {0}, {}, Some(0))
  {
    hide Run;
    FillingRun();
    var s, c := FILLING, Run(FILLING);
    s, c := Then(s, c, Check(0));
    s, c := Then(s, c, Swap(0));
    assert s == SWAPPED;
  }

  lemma Boot() returns (s: seq<Step>, c: Cluster)
    ensures s == [] && c == BOOT && Run(s) == c
  {
    s, c := [], BOOT;
  }

  /** A rebuild that crashes between its swap and its release: ten minutes later the next rebuild
      deletes the index search is answering from. */
  lemma CrashAfterSwapLosesLive()
    ensures Run(SWAPPED).live == Some(0)
    ensures Run(SWAPPED + [Crash(0)] + TAKEOVER + [Drop(1)]).live == None
    ensures Run(SWAPPED + [Crash(0)] + TAKEOVER + [Drop(1)]).indices == {}
    ensures Run(SWAPPED + [Crash(0)] + TAKEOVER + [Crash(1)]).live == Some(0)
  {
    SwappedRun();
    hide Run;
    var s, c := Then(SWAPPED, Run(SWAPPED), Crash(0));
    s, c := Then(s, c, Tick(LEASE_MS));
    s, c := Then(s, c, Start(1));
    s, c := Then(s, c, Read(1));
    s, c := Then(s, c, Take(1));
    assert s == SWAPPED + [Crash(0)] + TAKEOVER;
    var spared, d := Then(s, c, Crash(1));
    s, c := Then(s, c, Drop(1));
  }

  lemma OrphanedRun()
    ensures Run(FILLING + [Crash(0)] + TAKEOVER + [Crash(1)]) == Cluster(
      LEASE_MS, Some(Document(1, None, 2 * LEASE_MS, 2)), 3,
      map[0 := Rebuild(Over, Some(1), LEASE_MS), 1 := Rebuild(Over, Some(2), 2 * LEASE_MS)], {0}, {0}, None)
  {
    FillingRun();
    hide Run;
    var s, c := Then(FILLING, Run(FILLING), Crash(0));
    s, c := Then(s, c, Tick(LEASE_MS));
    s, c := Then(s, c, Start(1));
    s, c := Then(s, c, Read(1));
    s, c := Then(s, c, Take(1));
    assert s == FILLING + [Crash(0)] + TAKEOVER;
    s, c := Then(s, c, Crash(1));
  }

  /** A takeover that crashes before its drop orphans an index, and the next rebuild fills a second. */
  lemma CrashBeforeDropLeaksAnIndex()
    ensures Run(FILLING + [Crash(0)] + TAKEOVER + [Crash(1)] + AGAIN).filling == {0, 2}
  {
    OrphanedRun();
    hide Run;
    var before := FILLING + [Crash(0)] + TAKEOVER + [Crash(1)];
    var s, c := Then(before, Run(before), Tick(LEASE_MS));
    s, c := Then(s, c, Start(2));
    s, c := Then(s, c, Read(2));
    s, c := Then(s, c, Take(2));
    s, c := Then(s, c, Renew(2));
    s, c := Then(s, c, Create(2));
    assert s == before + AGAIN;
  }

  /** A swap that comes after the lease time, between a takeover and its drop, is undone by the drop. */
  lemma LateSwapIsDropped()
    ensures Run(FILLING + [Check(0)] + TAKEOVER + [Swap(0)]).live == Some(0)
    ensures Run(FILLING + [Check(0)] + TAKEOVER + [Swap(0)] + [Drop(1)]).live == None
  {
    FillingRun();
    hide Run;
    var s, c := Then(FILLING, Run(FILLING), Check(0));
    s, c := Then(s, c, Tick(LEASE_MS));
    s, c := Then(s, c, Start(1));
    s, c := Then(s, c, Read(1));
    s, c := Then(s, c, Take(1));
    assert s == FILLING + [Check(0)] + TAKEOVER;
    s, c := Then(s, c, Swap(0));
    s, c := Then(s, c, Drop(1));
  }

  lemma FailedCleanupRun()
    ensures Run(FILLING + [Fail(0), CleanupFails(0), Release(0)]) == Cluster(
      0, None, 3, map[0 := Rebuild(Over, Some(1), LEASE_MS)], {0}, {0}, None)
  {
    FillingRun();
    hide Run;
    var s, c := Then(FILLING, Run(FILLING), Fail(0));
    s, c := Then(s, c, CleanupFails(0));
    s, c := Then(s, c, Release(0));
    assert s == FILLING + [Fail(0), CleanupFails(0), Release(0)];
  }

  /** A rebuild whose clean-up is refused gives the lease back all the same: its index stays under the
      building alias, and the next rebuild fills a second. */
  lemma FailedCleanupLeaksAnIndex()
    ensures Run(FILLING + [Fail(0), CleanupFails(0), Release(0)]).lease == None
    ensures Run(FILLING + [Fail(0), CleanupFails(0), Release(0)] + [Start(1), Renew(1), Create(1)]).filling == {0, 1}
  {
    FailedCleanupRun();
    hide Run;
    var before := FILLING + [Fail(0), CleanupFails(0), Release(0)];
    var s, c := Then(before, Run(before), Start(1));
    s, c := Then(s, c, Renew(1));
    s, c := Then(s, c, Create(1));
    assert s == before + [Start(1), Renew(1), Create(1)];
  }
}

/** The writer lock of one search instance: event batches and rebuilds run one at a time, in the order
    they were submitted, and a failure does not hold up the next. */
module Lock {
  import opened Prelude

  type Task = nat

  datatype Finished = Finished(task: Task, ok: bool)

  function TasksOf(done: seq<Finished>): seq<Task> { seq(|done|, i requires 0 <= i < |done| => done[i].task) }

  class Exclusive {
    var waiting: seq<Task>
    var running: Option<Task>
    var done: seq<Finished>
    ghost var submitted: seq<Task>

    /** What finished, what runs (at most one task) and what waits are the submissions, in order. */
    ghost predicate Valid()
      reads this
    {
      submitted == TasksOf(done) + (if running.Some? then [running.value] else []) + waiting
    }

    constructor ()
      ensures Valid() && submitted == [] && running == None
    {
      waiting, running, done, submitted := [], None, [], [];
    }

    method Submit(t: Task)
      requires Valid()
      modifies this
      ensures Valid() && submitted == old(submitted) + [t]
      ensures running == old(running) && done == old(done)
    {
      waiting := waiting + [t];
      submitted := submitted + [t];
    }

    /** The tail settled, one way or the other: the task chained on it starts. */
    method Start() returns (started: Option<Task>)
      requires Valid()
      modifies this
      ensures Valid() && submitted == old(submitted) && done == old(done)
      ensures started.Some? <==> old(running).None? && old(waiting) != []
      ensures started.Some? ==> running == started && started.value == submitted[|done|]
      ensures started.None? ==> running == old(running) && waiting == old(waiting)
      ensures started.Some? ==> |waiting| < |old(waiting)|
    {
      if running.Some? || |waiting| == 0 {
        return None;
      }
      started := Some(waiting[0]);
      running := started;
      waiting := waiting[1..];
    }

    method Finish(ok: bool)
      requires Valid() && running.Some?
      modifies this
      ensures Valid() && submitted == old(submitted) && waiting == old(waiting) && running == None
      ensures done == old(done) + [Finished(old(running).value, ok)]
    {
      done := done + [Finished(running.value, ok)];
      assert TasksOf(done) == TasksOf(old(done)) + [running.value];
      running := None;
    }

    /** Whatever fails, every submitted task gets its turn, in order. */
    method Drain(outcomes: Task -> bool)
      requires Valid() && running.None?
      modifies this
      ensures Valid() && submitted == old(submitted) && TasksOf(done) == submitted
      ensures old(done) <= done && forall i :: |old(done)| <= i < |done| ==> done[i].ok == outcomes(done[i].task)
    {
      while |waiting| > 0
        invariant Valid() && running.None? && submitted == old(submitted)
        invariant old(done) <= done && forall i :: |old(done)| <= i < |done| ==> done[i].ok == outcomes(done[i].task)
        decreases |waiting|
      {
        var started := Start();
        Finish(outcomes(started.value));
      }
    }

    /** A batch of tasks chained on whatever waits: all run, after it and in their order. */
    method RunAll(tasks: seq<Task>, outcomes: Task -> bool)
      requires Valid() && running.None?
      modifies this
      ensures Valid() && submitted == old(submitted) + tasks && TasksOf(done) == submitted
    {
      for i := 0 to |tasks|
        invariant Valid() && running.None? && submitted == old(submitted) + tasks[..i]
      {
        Submit(tasks[i]);
      }
      assert tasks[..|tasks|] == tasks;
      Drain(outcomes);
    }
  }
}

/** The counters of the pipeline against the events of its runs: what the probes returned, which enqueue attempts met
    a full queue, and which schedulers were cancelled. */
module PipelineRuns {
  import opened Bytes
  import opened Targets
  import opened Counting
  import opened Pipeline
  import D = Dispatcher

  /** How much a step counts in the configuration it is taken in. */
  type Measure = (Config, Step) -> nat

  /** The sum over the steps of a run. */
  function Total(p: Params, steps: seq<Step>, m: Measure): nat
  {
    if steps == [] then 0
    else
      var n := |steps| - 1;
      Total(p, steps[..n], m) + (match Exec(p, steps[..n]) case Some(c) => m(c, steps[n]) case None => 0)
  }

  lemma LastStep(p: Params, steps: seq<Step>, m: Measure)
    requires steps != [] && Exec(p, steps).Some?
    ensures var n := |steps| - 1; var c := Exec(p, steps[..n]);
      && c.Some? && Enabled(p, c.value, steps[n]) && Exec(p, steps) == Some(Do(p, c.value, steps[n]))
      && Total(p, steps, m) == Total(p, steps[..n], m) + m(c.value, steps[n])
  {
  }

  // ---------------------------------------------------------------- results of probes

  function WatchedWorker(p: Params, c: Config, i: nat): nat
  {
    if i < |c.pool| && !c.pool[i].Waiting? then Weight(p, c.pool[i].job) else 0
  }

  /** A probe of a watched target fails: it returns a category, or its deadline passes before it gets a slot. */
  function Failure(p: Params): Measure
  {
    (c: Config, step: Step) =>
      match step
      case Return(i, cat) => if cat != [] then WatchedWorker(p, c, i) else 0
      case Expire(i) => WatchedWorker(p, c, i)
      case _ => 0
  }

  /** A probe of a watched target succeeds: it returns the empty category. */
  function Success(p: Params): Measure
  {
    (c: Config, step: Step) =>
      match step
      case Return(i, cat) => if cat == [] then WatchedWorker(p, c, i) else 0
      case _ => 0
  }

  /** Workers whose probe has ended and whose result is still to be reported. */
  const FAILED := (w: Worker) => (w.Returned? || w.Observed?) && w.cat != []
  const SUCCEEDED := (w: Worker) => (w.Returned? || w.Observed?) && w.cat == []

  lemma FailureStep(p: Params, c: Config, step: Step)
    requires Enabled(p, c, step)
    ensures var d := Do(p, c, step);
      d.errors + Count(On(p, FAILED), d.pool) == c.errors + Count(On(p, FAILED), c.pool) + Failure(p)(c, step)
  {
    var d := Do(p, c, step);
    D.FailuresAreNamed();
    PoolMoves(p, c, step);
    match Mover(step)
    case None =>
    case Some(i) =>
      CountUpdate(On(p, FAILED), c.pool, i, d.pool[i]);
  }

  lemma SuccessStep(p: Params, c: Config, step: Step)
    requires Enabled(p, c, step)
    ensures var d := Do(p, c, step);
      d.successes + Count(On(p, SUCCEEDED), d.pool) ==
        c.successes + Count(On(p, SUCCEEDED), c.pool) + Success(p)(c, step)
  {
    var d := Do(p, c, step);
    D.FailuresAreNamed();
    PoolMoves(p, c, step);
    match Mover(step)
    case None =>
    case Some(i) =>
      CountUpdate(On(p, SUCCEEDED), c.pool, i, d.pool[i]);
  }

  /** Of any selection of targets, the error counter counts the probes that failed, those that never got a slot
      included, and the successes those that returned no category; only results still to be reported are missing. */
  lemma {:induction false} ErrorsAreFailures(p: Params, steps: seq<Step>)
    requires Exec(p, steps).Some?
    ensures var c := Exec(p, steps).value;
      && c.errors + Count(On(p, FAILED), c.pool) == Total(p, steps, Failure(p))
      && c.successes + Count(On(p, SUCCEEDED), c.pool) == Total(p, steps, Success(p))
  {
    if steps == [] {
      CountNone(On(p, FAILED), Init(p).pool);
      CountNone(On(p, SUCCEEDED), Init(p).pool);
    } else {
      var n := |steps| - 1;
      LastStep(p, steps, Failure(p));
      LastStep(p, steps, Success(p));
      hide Exec, Do, Enabled, Total, Failure, Success;
      ErrorsAreFailures(p, steps[..n]);
      FailureStep(p, Exec(p, steps[..n]).value, steps[n]);
      SuccessStep(p, Exec(p, steps[..n]).value, steps[n]);
    }
  }

  // ---------------------------------------------------------------- enqueue attempts

  function WatchedScheduler(p: Params, c: Config, j: nat): nat
  {
    if j < |c.schedulers| then Weight(p, c.schedulers[j].target) else 0
  }

  /** An attempt of a watched target meets a full queue. */
  function MeetsFullQueue(p: Params): Measure
  {
    (c: Config, step: Step) => if step.Full? then WatchedScheduler(p, c, step.j) else 0
  }

  /** An attempt of a watched target sees the cancellation of its scheduler. */
  function SeesCancellation(p: Params): Measure
  {
    (c: Config, step: Step) => if step.Refuse? then WatchedScheduler(p, c, step.j) else 0
  }

  /** A watched target is due: its scheduler starts, or its ticker fires. */
  function Due(p: Params): Measure
  {
    (c: Config, step: Step) =>
      match step
      case Spawn(t) => Weight(p, t)
      case Tick(j) => WatchedScheduler(p, c, j)
      case _ => 0
  }

  const DROPPING := (s: Scheduler) => s.at == Dropping

  lemma DropStep(p: Params, c: Config, step: Step)
    requires Enabled(p, c, step)
    ensures var d := Do(p, c, step);
      d.dropped + Count(For(p, DROPPING), d.schedulers) ==
        c.dropped + Count(For(p, DROPPING), c.schedulers) + MeetsFullQueue(p)(c, step)
  {
    var d := Do(p, c, step);
    match Planner(step)
    case Some(j) =>
      assert d.schedulers == c.schedulers[j := d.schedulers[j]];
      CountUpdate(For(p, DROPPING), c.schedulers, j, d.schedulers[j]);
    case None =>
      if step.Spawn? {
        CountSnoc(For(p, DROPPING), c.schedulers, Scheduler(step.target, Enqueueing, false));
      } else {
        assert d.schedulers == c.schedulers;
      }
  }

  lemma OtherCounts(p: Params, c: Config, step: Step)
    requires Enabled(p, c, step)
    ensures var d := Do(p, c, step);
      d.refused == c.refused + SeesCancellation(p)(c, step) && d.attempts == c.attempts + Due(p)(c, step)
  {
  }

  /** Of any selection of targets, the drop counter counts the attempts that met a full queue, up to those whose drop
      is still to be counted; refused are those that saw a cancellation, and an attempt is made whenever a target is
      due. */
  lemma {:induction false} DropsAreFullQueues(p: Params, steps: seq<Step>)
    requires Exec(p, steps).Some?
    ensures var c := Exec(p, steps).value;
      && c.dropped + Count(For(p, DROPPING), c.schedulers) == Total(p, steps, MeetsFullQueue(p))
      && c.refused == Total(p, steps, SeesCancellation(p))
      && c.attempts == Total(p, steps, Due(p))
  {
    if steps == [] {
    } else {
      var n := |steps| - 1;
      LastStep(p, steps, MeetsFullQueue(p));
      LastStep(p, steps, SeesCancellation(p));
      LastStep(p, steps, Due(p));
      hide Exec, Do, Enabled, Total, MeetsFullQueue, SeesCancellation, Due;
      DropsAreFullQueues(p, steps[..n]);
      DropStep(p, Exec(p, steps[..n]).value, steps[n]);
      OtherCounts(p, Exec(p, steps[..n]).value, steps[n]);
    }
  }

  // ---------------------------------------------------------------- the life of a scheduler

  /** An enqueue attempt never blocks: it can be sent, is dropped, or sees the cancellation. */
  lemma EnqueueNeverBlocks(p: Params, c: Config, j: nat)
    requires SchedulerIs(c, j, Enqueueing)
    ensures Enabled(p, c, Send(j)) || Enabled(p, c, Full(j)) || Enabled(p, c, Refuse(j))
  {
  }

  /** A drop does not end a scheduler: it waits for its ticker again, and the next tick makes the next attempt. */
  lemma TicksOnAfterDrop(p: Params, c: Config, j: nat)
    requires SchedulerIs(c, j, Dropping)
    ensures Enabled(p, c, CountDrop(j)) && Enabled(p, Do(p, c, CountDrop(j)), Tick(j))
    ensures SchedulerIs(Do(p, Do(p, c, CountDrop(j)), Tick(j)), j, Enqueueing)
  {
  }

  lemma CancelStep(p: Params, c: Config, step: Step, j: nat)
    requires Enabled(p, c, step)
    ensures var d := Do(p, c, step);
      && |c.schedulers| <= |d.schedulers|
      && (j < |d.schedulers| && d.schedulers[j].cancelled ==>
            step == Cancel(j) || (j < |c.schedulers| && c.schedulers[j].cancelled))
      && (j < |d.schedulers| && d.schedulers[j].at == Ended ==>
            j < |c.schedulers| && (c.schedulers[j].at == Ended || c.schedulers[j].cancelled))
      && (j < |c.schedulers| && c.schedulers[j].cancelled ==> d.schedulers[j].cancelled)
  {
  }

  /** A scheduler ends only after its cancel function was called, whatever was dropped on the way. */
  lemma {:induction false} EndsOnlyByCancellation(p: Params, steps: seq<Step>, j: nat)
    requires Exec(p, steps).Some?
    ensures var c := Exec(p, steps).value;
      && (j < |c.schedulers| && c.schedulers[j].cancelled ==> Cancel(j) in steps)
      && (SchedulerIs(c, j, Ended) ==> c.schedulers[j].cancelled && Cancel(j) in steps)
  {
    if steps == [] {
    } else {
      var n := |steps| - 1;
      LastStep(p, steps, Due(p));
      hide Exec, Do, Enabled, Total;
      EndsOnlyByCancellation(p, steps[..n], j);
      CancelStep(p, Exec(p, steps[..n]).value, steps[n], j);
      assert steps == steps[..n] + [steps[n]];
    }
  }

  /** A cancelled scheduler can always end, at its next select at the latest; an attempt that sees the cancellation ends
      it. */
  lemma CancellationEnds(p: Params, c: Config, j: nat)
    requires j < |c.schedulers| && c.schedulers[j].cancelled
    ensures c.schedulers[j].at == Enqueueing ==> Enabled(p, c, Refuse(j)) && SchedulerIs(Do(p, c, Refuse(j)), j, Ended)
    ensures c.schedulers[j].at == Ticking ==> Enabled(p, c, End(j)) && SchedulerIs(Do(p, c, End(j)), j, Ended)
    ensures c.schedulers[j].at == Dropping ==>
      Enabled(p, c, CountDrop(j)) && Enabled(p, Do(p, c, CountDrop(j)), End(j))
  {
  }

  /** An ended scheduler stays ended: it makes no further attempt. */
  lemma {:induction false} EndedIsFinal(p: Params, steps: seq<Step>, more: seq<Step>, j: nat)
    requires Exec(p, steps).Some? && Exec(p, steps + more).Some? && SchedulerIs(Exec(p, steps).value, j, Ended)
    ensures SchedulerIs(Exec(p, steps + more).value, j, Ended) && Tick(j) !in more
  {
    hide Exec, Do, Enabled, SchedulerIs;
    if more == [] {
      assert steps + more == steps;
    } else {
      var n := |more| - 1;
      ExecMore(p, steps, more);
      var c := Exec(p, steps + more[..n]).value;
      EndedIsFinal(p, steps, more[..n], j);
      EndedStays(p, c, more[n], j);
      NotAmong(more, Tick(j));
    }
  }

  lemma NotAmong(steps: seq<Step>, step: Step)
    requires steps != [] && step !in steps[..|steps| - 1] && step != steps[|steps| - 1]
    ensures step !in steps
  {
  }

  lemma ExecMore(p: Params, steps: seq<Step>, more: seq<Step>)
    requires more != [] && Exec(p, steps + more).Some?
    ensures var n := |more| - 1; var c := Exec(p, steps + more[..n]);
      c.Some? && Enabled(p, c.value, more[n]) && Exec(p, steps + more) == Some(Do(p, c.value, more[n]))
  {
    hide Do, Enabled;
    assert (steps + more)[..|steps + more| - 1] == steps + more[..|more| - 1];
  }

  lemma EndedStays(p: Params, c: Config, step: Step, j: nat)
    requires Enabled(p, c, step) && SchedulerIs(c, j, Ended)
    ensures SchedulerIs(Do(p, c, step), j, Ended) && step != Tick(j)
  {
  }
}

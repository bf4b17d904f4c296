/** The probe pipeline as a transition system: schedulers, the bounded job queue, the worker pool, the semaphore and
    the metrics (pkg/prober/worker.go, pkg/prober/dispatcher.go, main.go).  Every atomic action of a goroutine is one
    step; steps of different goroutines interleave in any order. */
module Pipeline {
  import opened Bytes
  import opened Targets
  import opened Counting
  import D = Dispatcher

  /** The configuration, and the targets whose metrics are looked at.  The metric vectors are labelled by target; a
      counter below is the sum of a vector over the watched targets: all of them, a single one, or any selection. */
  datatype Params = Params(workers: nat, queueSize: nat, sem: Option<nat>, watched: Target -> bool)

  /** A scheduler goroutine. */
  datatype SchedulerAt =
    | Enqueueing                    // inside enqueue, before its select
    | Dropping                      // the queue was full, the drop not yet counted
    | Ticking                       // waiting for the ticker or for cancellation
    | Ended

  datatype Scheduler = Scheduler(target: Target, at: SchedulerAt, cancelled: bool)

  /** A worker goroutine. */
  datatype Worker =
    | Waiting                       // at its select
    | Got(job: Target)              // received, ProbeTarget about to begin
    | Gauged(job: Target)           // saturation raised
    | Acquiring(job: Target)        // traffic counted, at the select on the semaphore
    | Probing(job: Target, token: bool)
    | Returned(job: Target, cat: D.Category)
    | Observed(job: Target, cat: D.Category)
    | Finishing(job: Target)        // error counted if there was one

  datatype Config = Config(
    schedulers: seq<Scheduler>,
    queue: seq<Target>,
    pool: seq<Worker>,
    tokens: nat,
    sent: seq<Target>, received: seq<Target>,       // all jobs so far
    saturation: int,
    attempts: nat, dropped: nat, refused: nat,      // cumulative, of the watched targets
    traffic: nat, latencies: nat, errors: nat, successes: nat, finished: nat)

  /** What an event of a target adds to a counter. */
  function Weight(p: Params, t: Target): nat
  {
    if p.watched(t) then 1 else 0
  }

  function Init(p: Params): Config
  {
    Config([], [], seq(p.workers, _ => Waiting), 0, [], [], 0, 0, 0, 0, 0, 0, 0, 0, 0)
  }

  datatype Step =
    | Spawn(target: Target)         // the event loop starts a scheduler, which enqueues at once
    | Cancel(j: nat)                // its cancel function is called
    | Send(j: nat)
    | HandOver(j: nat, i: nat)      // a send met directly by a waiting worker
    | Refuse(j: nat)                // enqueue sees the cancellation
    | Full(j: nat)                  // enqueue takes its default case
    | CountDrop(j: nat)
    | Tick(j: nat)
    | End(j: nat)
    | Take(i: nat)
    | RaiseGauge(i: nat)
    | CountTraffic(i: nat)
    | Acquire(i: nat)
    | Expire(i: nat)                // the deadline passes while waiting for a token
    | Return(i: nat, cat: D.Category)
    | Observe(i: nat)
    | Report(i: nat)
    | LowerGauge(i: nat)

  predicate SchedulerIs(c: Config, j: nat, at: SchedulerAt)
  {
    j < |c.schedulers| && c.schedulers[j].at == at
  }

  predicate Enabled(p: Params, c: Config, step: Step)
  {
    match step
    case Spawn(_) => true
    case Cancel(j) => j < |c.schedulers|
    case Send(j) => SchedulerIs(c, j, Enqueueing) && |c.queue| < p.queueSize
    case HandOver(j, i) => SchedulerIs(c, j, Enqueueing) && c.queue == [] && i < |c.pool| && c.pool[i].Waiting?
    case Refuse(j) => SchedulerIs(c, j, Enqueueing) && c.schedulers[j].cancelled
    case Full(j) => SchedulerIs(c, j, Enqueueing) && |c.queue| >= p.queueSize && !c.schedulers[j].cancelled
    case CountDrop(j) => SchedulerIs(c, j, Dropping)
    case Tick(j) => SchedulerIs(c, j, Ticking)
    case End(j) => SchedulerIs(c, j, Ticking) && c.schedulers[j].cancelled
    case Take(i) => i < |c.pool| && c.pool[i].Waiting? && c.queue != []
    case RaiseGauge(i) => i < |c.pool| && c.pool[i].Got?
    case CountTraffic(i) => i < |c.pool| && c.pool[i].Gauged?
    case Acquire(i) => i < |c.pool| && c.pool[i].Acquiring? && (p.sem.Some? ==> c.tokens < p.sem.value)
    case Expire(i) => i < |c.pool| && c.pool[i].Acquiring? && p.sem.Some?
    case Return(i, _) => i < |c.pool| && c.pool[i].Probing? && (c.pool[i].token ==> c.tokens > 0)
    case Observe(i) => i < |c.pool| && c.pool[i].Returned?
    case Report(i) => i < |c.pool| && c.pool[i].Observed?
    case LowerGauge(i) => i < |c.pool| && c.pool[i].Finishing?
  }

  function At(c: Config, j: nat, at: SchedulerAt): Config
    requires j < |c.schedulers|
  {
    c.(schedulers := c.schedulers[j := c.schedulers[j].(at := at)])
  }

  function Now(c: Config, i: nat, w: Worker): Config
    requires i < |c.pool|
  {
    c.(pool := c.pool[i := w])
  }

  function Do(p: Params, c: Config, step: Step): Config
    requires Enabled(p, c, step)
  {
    match step
    case Spawn(t) =>
      c.(schedulers := c.schedulers + [Scheduler(t, Enqueueing, false)], attempts := c.attempts + Weight(p, t))
    case Cancel(j) => c.(schedulers := c.schedulers[j := c.schedulers[j].(cancelled := true)])
    case Send(j) =>
      var t := c.schedulers[j].target;
      At(c, j, Ticking).(queue := c.queue + [t], sent := c.sent + [t])
    case HandOver(j, i) =>
      var t := c.schedulers[j].target;
      Now(At(c, j, Ticking), i, Got(t)).(sent := c.sent + [t], received := c.received + [t])
    case Refuse(j) => At(c, j, Ended).(refused := c.refused + Weight(p, c.schedulers[j].target))
    case Full(j) => At(c, j, Dropping)
    case CountDrop(j) => At(c, j, Ticking).(dropped := c.dropped + Weight(p, c.schedulers[j].target))
    case Tick(j) => At(c, j, Enqueueing).(attempts := c.attempts + Weight(p, c.schedulers[j].target))
    case End(j) => At(c, j, Ended)
    case Take(i) => Now(c, i, Got(c.queue[0])).(queue := c.queue[1..], received := c.received + [c.queue[0]])
    case RaiseGauge(i) => Now(c, i, Gauged(c.pool[i].job)).(saturation := c.saturation + 1)
    case CountTraffic(i) => Now(c, i, Acquiring(c.pool[i].job)).(traffic := c.traffic + Weight(p, c.pool[i].job))
    case Acquire(i) =>
      if p.sem.Some? then Now(c, i, Probing(c.pool[i].job, true)).(tokens := c.tokens + 1)
      else Now(c, i, Probing(c.pool[i].job, false))
    case Expire(i) => Now(c, i, Returned(c.pool[i].job, D.Timeout()))
    case Return(i, cat) =>
      Now(c, i, Returned(c.pool[i].job, cat)).(tokens := if c.pool[i].token then c.tokens - 1 else c.tokens)
    case Observe(i) =>
      Now(c, i, Observed(c.pool[i].job, c.pool[i].cat)).(latencies := c.latencies + Weight(p, c.pool[i].job))
    case Report(i) =>
      if c.pool[i].cat != [] then Now(c, i, Finishing(c.pool[i].job)).(errors := c.errors + Weight(p, c.pool[i].job))
      else Now(c, i, Finishing(c.pool[i].job)).(successes := c.successes + Weight(p, c.pool[i].job))
    case LowerGauge(i) =>
      Now(c, i, Waiting).(saturation := c.saturation - 1, finished := c.finished + Weight(p, c.pool[i].job))
  }

  function Exec(p: Params, steps: seq<Step>): Option<Config>
  {
    if steps == [] then Some(Init(p))
    else
      var last := steps[|steps| - 1];
      match Exec(p, steps[..|steps| - 1])
      case None => None
      case Some(c) => if Enabled(p, c, last) then Some(Do(p, c, last)) else None
  }

  ghost predicate Reachable(p: Params, c: Config)
  {
    exists steps :: Exec(p, steps) == Some(c)
  }

  // ---------------------------------------------------------------- the invariant

  const OPEN := (s: Scheduler) => s.at == Enqueueing || s.at == Dropping
  const BUSY := (w: Worker) => !w.Waiting?
  const UNCOUNTED := (w: Worker) => w.Got? || w.Gauged?
  const INSIDE := (w: Worker) => !w.Waiting? && !w.Got?
  const UNOBSERVED := (w: Worker) => w.Acquiring? || w.Probing? || w.Returned?
  const UNREPORTED := (w: Worker) => w.Observed?
  const HOLDING := (w: Worker) => w.Probing? && w.token

  /** A scheduler of a watched target that satisfies `q`. */
  function For(p: Params, q: Scheduler -> bool): Scheduler -> bool
  {
    (s: Scheduler) => q(s) && p.watched(s.target)
  }

  /** A worker with a job of a watched target that satisfies `q`. */
  function On(p: Params, q: Worker -> bool): Worker -> bool
  {
    (w: Worker) => !w.Waiting? && q(w) && p.watched(w.job)
  }

  /** The scheduling side: every attempt is sent, dropped, refused or still open. */
  predicate Scheduled(p: Params, c: Config)
  {
    c.attempts == Count(p.watched, c.sent) + c.dropped + c.refused + Count(For(p, OPEN), c.schedulers)
  }

  /** The queue: what was sent is what was received, in order, followed by what is queued. */
  predicate Queued(p: Params, c: Config)
  {
    c.sent == c.received + c.queue && |c.queue| <= p.queueSize
  }

  /** `ahead` leads `behind` by the workers that satisfy `q`. */
  predicate Leads(ahead: int, behind: int, q: Worker -> bool, pool: seq<Worker>)
  {
    ahead == behind + Count(q, pool)
  }

  /** The worker side: counters against the positions of the workers. */
  predicate Counted(p: Params, c: Config)
  {
    && Leads(Count(p.watched, c.received), c.finished, On(p, BUSY), c.pool)
    && Leads(Count(p.watched, c.received), c.traffic, On(p, UNCOUNTED), c.pool)
    && Leads(c.traffic, c.latencies, On(p, UNOBSERVED), c.pool)
    && Leads(c.latencies, c.errors + c.successes, On(p, UNREPORTED), c.pool)
  }

  predicate Saturated(p: Params, c: Config)
  {
    |c.pool| == p.workers && Leads(c.saturation, 0, INSIDE, c.pool)
  }

  predicate Tokened(p: Params, c: Config)
  {
    && c.tokens == Count(HOLDING, c.pool)
    && (if p.sem.Some? then c.tokens <= p.sem.value else c.tokens == 0)
  }

  ghost predicate Good(p: Params, c: Config)
  {
    Queued(p, c) && Scheduled(p, c) && Counted(p, c) && Saturated(p, c) && Tokened(p, c)
  }

  lemma InitGood(p: Params)
    ensures Good(p, Init(p))
  {
    var pool := Init(p).pool;
    CountNone(INSIDE, pool);
    CountNone(HOLDING, pool);
    CountNone(On(p, BUSY), pool);
    CountNone(On(p, UNCOUNTED), pool);
    CountNone(On(p, UNOBSERVED), pool);
    CountNone(On(p, UNREPORTED), pool);
  }

  /** The existing scheduler a step moves, if it moves one. */
  function Planner(step: Step): Option<nat>
  {
    match step
    case Cancel(j) => Some(j)
    case Send(j) => Some(j)
    case HandOver(j, _) => Some(j)
    case Refuse(j) => Some(j)
    case Full(j) => Some(j)
    case CountDrop(j) => Some(j)
    case Tick(j) => Some(j)
    case End(j) => Some(j)
    case _ => None
  }

  lemma SpawnStep(p: Params, c: Config, t: Target)
    requires Scheduled(p, c)
    ensures Scheduled(p, Do(p, c, Spawn(t)))
  {
    CountSnoc(For(p, OPEN), c.schedulers, Scheduler(t, Enqueueing, false));
  }

  /** An open attempt of a scheduler becomes a job sent. */
  lemma AttemptSent(p: Params, c: Config, j: nat)
    requires Scheduled(p, c) && SchedulerIs(c, j, Enqueueing)
    ensures c.attempts ==
      Count(p.watched, c.sent + [c.schedulers[j].target]) + c.dropped + c.refused +
        Count(For(p, OPEN), At(c, j, Ticking).schedulers)
  {
    CountUpdate(For(p, OPEN), c.schedulers, j, c.schedulers[j].(at := Ticking));
    CountSnoc(p.watched, c.sent, c.schedulers[j].target);
  }

  lemma SendStep(p: Params, c: Config, step: Step, j: nat)
    requires Scheduled(p, c) && Enabled(p, c, step) && (step == Send(j) || (step.HandOver? && step.j == j))
    ensures Scheduled(p, Do(p, c, step))
  {
    AttemptSent(p, c, j);
    hide Count;
    var d := Do(p, c, step);
    assert d.sent == c.sent + [c.schedulers[j].target] && d.schedulers == At(c, j, Ticking).schedulers;
  }

  lemma SchedulerStep(p: Params, c: Config, step: Step)
    requires Scheduled(p, c) && Enabled(p, c, step)
    ensures Scheduled(p, Do(p, c, step))
  {
    var d := Do(p, c, step);
    match Planner(step)
    case Some(j) =>
      if step.Send? || step.HandOver? {
        SendStep(p, c, step, j);
      } else {
        assert d.schedulers == c.schedulers[j := d.schedulers[j]];
        CountUpdate(For(p, OPEN), c.schedulers, j, d.schedulers[j]);
      }
    case None =>
      if step.Spawn? {
        SpawnStep(p, c, step.target);
      } else {
        assert d.schedulers == c.schedulers;
      }
  }

  lemma QueueStep(p: Params, c: Config, step: Step)
    requires Queued(p, c) && Enabled(p, c, step)
    ensures Queued(p, Do(p, c, step))
  {
    var d := Do(p, c, step);
    match step
    case Send(_) => assert d.sent == d.received + d.queue;
    case HandOver(_, _) => assert d.sent == d.received + d.queue;
    case Take(_) => assert c.queue == [c.queue[0]] + d.queue;
    case _ => assert d.queue == c.queue;
  }

  /** The worker a step moves, if it moves one. */
  function Mover(step: Step): Option<nat>
  {
    match step
    case HandOver(_, i) => Some(i)
    case Take(i) => Some(i)
    case RaiseGauge(i) => Some(i)
    case CountTraffic(i) => Some(i)
    case Acquire(i) => Some(i)
    case Expire(i) => Some(i)
    case Return(i, _) => Some(i)
    case Observe(i) => Some(i)
    case Report(i) => Some(i)
    case LowerGauge(i) => Some(i)
    case _ => None
  }

  lemma PoolMoves(p: Params, c: Config, step: Step)
    requires Enabled(p, c, step)
    ensures var d := Do(p, c, step);
      match Mover(step)
      case None => d.pool == c.pool
      case Some(i) => i < |c.pool| && |d.pool| == |c.pool| && d.pool == c.pool[i := d.pool[i]]
  {
  }

  /** A waiting worker takes a job: one more received, and one more worker busy with it. */
  lemma JobTaken(p: Params, c: Config, i: nat, t: Target, behind: int, q: Worker -> bool)
    requires Leads(Count(p.watched, c.received), behind, On(p, q), c.pool)
    requires i < |c.pool| && c.pool[i].Waiting? && q(Got(t))
    ensures Leads(Count(p.watched, c.received + [t]), behind, On(p, q), c.pool[i := Got(t)])
  {
    CountUpdate(On(p, q), c.pool, i, Got(t));
    CountSnoc(p.watched, c.received, t);
  }

  /** What a step that hands a job to a worker does on the worker side. */
  lemma TakeShape(p: Params, c: Config, step: Step) returns (i: nat, t: Target)
    requires Enabled(p, c, step) && (step.HandOver? || step.Take?)
    ensures i < |c.pool| && c.pool[i].Waiting?
    ensures var d := Do(p, c, step);
      && d.pool == c.pool[i := Got(t)] && d.received == c.received + [t]
      && d.finished == c.finished && d.traffic == c.traffic
  {
    if step.Take? {
      i, t := step.i, c.queue[0];
    } else {
      i, t := step.i, c.schedulers[step.j].target;
    }
  }

  lemma FinishStep(p: Params, c: Config, step: Step)
    requires Leads(Count(p.watched, c.received), c.finished, On(p, BUSY), c.pool) && Enabled(p, c, step)
    ensures var d := Do(p, c, step); Leads(Count(p.watched, d.received), d.finished, On(p, BUSY), d.pool)
  {
    if step.HandOver? || step.Take? {
      var i, t := TakeShape(p, c, step);
      JobTaken(p, c, i, t, c.finished, BUSY);
      hide Leads, Do, Enabled;
    } else {
      var d := Do(p, c, step);
      assert d.received == c.received;
      PoolMoves(p, c, step);
      match Mover(step)
      case None =>
      case Some(i) =>
        CountUpdate(On(p, BUSY), c.pool, i, d.pool[i]);
    }
  }

  lemma TrafficStep(p: Params, c: Config, step: Step)
    requires Leads(Count(p.watched, c.received), c.traffic, On(p, UNCOUNTED), c.pool) && Enabled(p, c, step)
    ensures var d := Do(p, c, step); Leads(Count(p.watched, d.received), d.traffic, On(p, UNCOUNTED), d.pool)
  {
    if step.HandOver? || step.Take? {
      var i, t := TakeShape(p, c, step);
      JobTaken(p, c, i, t, c.traffic, UNCOUNTED);
      hide Leads, Do, Enabled;
    } else {
      var d := Do(p, c, step);
      assert d.received == c.received;
      PoolMoves(p, c, step);
      match Mover(step)
      case None =>
      case Some(i) =>
        CountUpdate(On(p, UNCOUNTED), c.pool, i, d.pool[i]);
    }
  }

  lemma LatencyStep(p: Params, c: Config, step: Step)
    requires Leads(c.traffic, c.latencies, On(p, UNOBSERVED), c.pool) && Enabled(p, c, step)
    ensures var d := Do(p, c, step); Leads(d.traffic, d.latencies, On(p, UNOBSERVED), d.pool)
  {
    var d := Do(p, c, step);
    PoolMoves(p, c, step);
    match Mover(step)
    case None =>
    case Some(i) =>
      CountUpdate(On(p, UNOBSERVED), c.pool, i, d.pool[i]);
  }

  lemma ReportStep(p: Params, c: Config, step: Step)
    requires Leads(c.latencies, c.errors + c.successes, On(p, UNREPORTED), c.pool) && Enabled(p, c, step)
    ensures var d := Do(p, c, step); Leads(d.latencies, d.errors + d.successes, On(p, UNREPORTED), d.pool)
  {
    var d := Do(p, c, step);
    PoolMoves(p, c, step);
    match Mover(step)
    case None =>
    case Some(i) =>
      CountUpdate(On(p, UNREPORTED), c.pool, i, d.pool[i]);
  }

  lemma SaturationStep(p: Params, c: Config, step: Step)
    requires Saturated(p, c) && Enabled(p, c, step)
    ensures Saturated(p, Do(p, c, step))
  {
    var d := Do(p, c, step);
    PoolMoves(p, c, step);
    match Mover(step)
    case None =>
    case Some(i) =>
      CountUpdate(INSIDE, c.pool, i, d.pool[i]);
  }

  lemma TokensStep(p: Params, c: Config, step: Step)
    requires Tokened(p, c) && Enabled(p, c, step)
    ensures Tokened(p, Do(p, c, step))
  {
    var d := Do(p, c, step);
    PoolMoves(p, c, step);
    match Mover(step)
    case None =>
    case Some(i) =>
      CountUpdate(HOLDING, c.pool, i, d.pool[i]);
  }

  lemma StepGood(p: Params, c: Config, step: Step)
    requires Good(p, c) && Enabled(p, c, step)
    ensures Good(p, Do(p, c, step))
  {
    hide Scheduled, Queued, Leads, Saturated, Tokened, Do, Enabled;
    QueueStep(p, c, step);
    SchedulerStep(p, c, step);
    FinishStep(p, c, step);
    TrafficStep(p, c, step);
    LatencyStep(p, c, step);
    ReportStep(p, c, step);
    SaturationStep(p, c, step);
    TokensStep(p, c, step);
  }

  lemma {:induction false} ExecGood(p: Params, steps: seq<Step>)
    requires Exec(p, steps).Some?
    ensures Good(p, Exec(p, steps).value)
  {
    if steps == [] {
      InitGood(p);
    } else {
      ExecGood(p, steps[..|steps| - 1]);
      StepGood(p, Exec(p, steps[..|steps| - 1]).value, steps[|steps| - 1]);
    }
  }

  lemma ReachableGood(p: Params, c: Config)
    requires Reachable(p, c)
    ensures Good(p, c)
  {
    var steps :| Exec(p, steps) == Some(c);
    ExecGood(p, steps);
  }

  // ---------------------------------------------------------------- conservation

  /** Of any selection of targets, each enqueue attempt is sent, dropped, refused or still open.  Jobs are received in
      the order of sending, and the queue keeps within its size. */
  lemma JobsConserved(p: Params, c: Config)
    requires Reachable(p, c)
    ensures c.attempts == Count(p.watched, c.sent) + c.dropped + c.refused + Count(For(p, OPEN), c.schedulers)
    ensures c.sent == c.received + c.queue && |c.queue| <= p.queueSize
  {
    ReachableGood(p, c);
  }

  /** No job is lost or probed twice: of any selection of targets, each job sent is queued, in the hands of a worker, or
      finished. */
  lemma JobsHandledOnce(p: Params, c: Config)
    requires Reachable(p, c)
    ensures Count(p.watched, c.sent) == c.finished + Count(On(p, BUSY), c.pool) + Count(p.watched, c.queue)
  {
    ReachableGood(p, c);
    CountAppend(p.watched, c.received, c.queue);
  }

  /** The saturation gauge is the number of workers inside ProbeTarget, between zero and the size of the pool. */
  lemma SaturationIsBusyWorkers(p: Params, c: Config)
    requires Reachable(p, c)
    ensures c.saturation == Count(INSIDE, c.pool) && 0 <= c.saturation <= p.workers
  {
    ReachableGood(p, c);
  }

  /** Of any selection of targets, traffic counts the jobs received but those just taken; latencies lag behind traffic
      by the probes in between; every observed latency is in time an error or a success, so errors never exceed
      latencies. */
  lemma SignalsConserved(p: Params, c: Config)
    requires Reachable(p, c)
    ensures Count(p.watched, c.received) == c.traffic + Count(On(p, UNCOUNTED), c.pool)
    ensures c.traffic == c.latencies + Count(On(p, UNOBSERVED), c.pool)
    ensures c.latencies == c.errors + c.successes + Count(On(p, UNREPORTED), c.pool)
    ensures c.errors <= c.latencies <= c.traffic
  {
    ReachableGood(p, c);
  }

  // ---------------------------------------------------------------- the semaphore

  /** Tokens are exactly the probes under way, never more than there are slots, and giving one back never blocks. */
  lemma TokensAreProbes(p: Params, c: Config)
    requires Reachable(p, c)
    ensures c.tokens == Count(HOLDING, c.pool) && (p.sem.Some? ==> c.tokens <= p.sem.value)
    ensures forall i, cat :: 0 <= i < |c.pool| && c.pool[i].Probing? ==> Enabled(p, c, Return(i, cat))
  {
    ReachableGood(p, c);
    forall i, cat | 0 <= i < |c.pool| && c.pool[i].Probing?
      ensures Enabled(p, c, Return(i, cat))
    {
      if c.pool[i].token {
        CountHits(HOLDING, c.pool, i);
      }
    }
  }

  /** Some worker can find all slots taken. */
  ghost predicate CanWait(p: Params)
  {
    exists c, i: nat :: Reachable(p, c) && i < |c.pool| && c.pool[i].Acquiring? && !Enabled(p, c, Acquire(i))
  }

  /** With at least as many slots as workers, acquiring never waits. */
  lemma EnoughSlots(p: Params, c: Config, i: nat)
    requires Reachable(p, c) && i < |c.pool| && c.pool[i].Acquiring? && (p.sem.Some? ==> p.workers <= p.sem.value)
    ensures Enabled(p, c, Acquire(i))
  {
    ReachableGood(p, c);
    CountMisses(HOLDING, c.pool, i);
  }

  lemma Extend(p: Params, c: Config, step: Step)
    requires Reachable(p, c) && Enabled(p, c, step)
    ensures Reachable(p, Do(p, c, step))
  {
    var steps :| Exec(p, steps) == Some(c);
    var more := steps + [step];
    assert more[..|more| - 1] == steps;
    assert Exec(p, more) == Some(Do(p, c, step));
  }

  /** A job reaches worker `i` and brings it to the semaphore. */
  lemma BringToSemaphore(p: Params, c: Config, i: nat) returns (d: Config)
    requires Reachable(p, c) && c.queue == [] && i < |c.pool| && c.pool[i].Waiting?
    ensures Reachable(p, d) && d.queue == [] && d.tokens == c.tokens
    ensures |d.pool| == |c.pool| && d.pool[i].Acquiring?
    ensures forall k :: 0 <= k < |c.pool| && k != i ==> d.pool[k] == c.pool[k]
  {
    var t := Stub([]);
    Extend(p, c, Spawn(t));
    d := Do(p, c, Spawn(t));
    var hand := HandOver(|c.schedulers|, i);
    Extend(p, d, hand);
    d := Do(p, d, hand);
    Extend(p, d, RaiseGauge(i));
    d := Do(p, d, RaiseGauge(i));
    Extend(p, d, CountTraffic(i));
    d := Do(p, d, CountTraffic(i));
  }

  /** The first `k` workers can hold a token each, the others waiting for work. */
  lemma {:induction false} Saturate(p: Params, k: nat) returns (c: Config)
    requires p.sem.Some? && k <= p.sem.value && k <= p.workers
    ensures Reachable(p, c) && c.queue == [] && c.tokens == k && |c.pool| == p.workers
    ensures forall i :: k <= i < p.workers ==> c.pool[i].Waiting?
  {
    if k == 0 {
      c := Init(p);
      assert Exec(p, []) == Some(c);
    } else {
      c := Saturate(p, k - 1);
      c := BringToSemaphore(p, c, k - 1);
      Extend(p, c, Acquire(k - 1));
      c := Do(p, c, Acquire(k - 1));
    }
  }

  /** A worker may have to wait for a slot exactly when there are fewer slots than workers. */
  lemma CanWaitIff(p: Params)
    ensures CanWait(p) <==> p.sem.Some? && p.sem.value < p.workers
  {
    if p.sem.Some? && p.sem.value < p.workers {
      var k := p.sem.value;
      var c := Saturate(p, k);
      c := BringToSemaphore(p, c, k);
      assert !Enabled(p, c, Acquire(k));
    } else {
      forall c, i: nat | Reachable(p, c) && i < |c.pool| && c.pool[i].Acquiring?
        ensures Enabled(p, c, Acquire(i))
      {
        EnoughSlots(p, c, i);
      }
    }
  }

  /** The default configuration, twice as many slots as workers, never makes a worker wait; an explicit setting does
      exactly when it is positive and below the number of workers. */
  lemma ConfiguredWaitIff(workers: nat, queueSize: nat, configured: Option<int>, watched: Target -> bool)
    ensures CanWait(Params(workers, queueSize, D.Semaphore(D.MaxConcurrentProbes(workers, configured)), watched)) <==>
      configured.Some? && 0 < configured.value < workers
  {
    CanWaitIff(Params(workers, queueSize, D.Semaphore(D.MaxConcurrentProbes(workers, configured)), watched));
  }
}

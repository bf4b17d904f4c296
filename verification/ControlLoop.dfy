/** Registry, event queue, event loop and metrics cleaner running together, one small step at a time.
    Registry operations follow one another: an operation starts when the previous one has emitted its events.
    Within that, emission, the event loop's handling of an event, and metric scrapes interleave freely. */
module ControlLoop {
  import opened Bytes
  import opened Targets
  import opened RegistryState
  import opened RegistryLaws
  import opened EventOrder
  import opened EventLoop
  import MC = MetricsCleaner

  /** Capacity of the registry's Events channel. */
  const CAPACITY: nat := 1000

  /** Where the event loop is with the event it received last. */
  datatype Hand =
    | Idle
    | Taken(e: TargetEvent)         // received
    | Cleared(e: TargetEvent)       // addition, pending deletion aborted
    | Detached(a: Str, id: nat)     // removal, entry deleted, scheduler not yet cancelled
    | Stopping(a: Str)              // removal, scheduler cancelled, not yet marked for deletion

  /** What happened to marks for deletion, per address. */
  datatype Tally = Tally(
    marked: multiset<Str>, overwritten: multiset<Str>, aborted: multiset<Str>,
    collected: multiset<Str>, deleted: multiset<Str>)

  datatype Config = Config(
    reg: State,
    outbox: seq<TargetEvent>,       // computed by the last operation, not yet emitted
    queue: seq<TargetEvent>,        // the Events channel
    hand: Hand,
    loop: Loop,
    toDelete: multiset<Str>,        // collected by a scrape, callback not yet run
    lost: set<Str>,                 // addresses with an addition dropped on a full channel
    tally: Tally)

  function Start(claims: Claim): Config
  {
    Config(RegistryState.Init(claims), [], [], Idle, EMPTY, multiset{}, {},
           Tally(multiset{}, multiset{}, multiset{}, multiset{}, multiset{}))
  }

  datatype Step =
    | Operate(op: Op, evs: seq<TargetEvent>)  // a critical section of the registry
    | Emit                                    // one event enters the channel
    | Drop                                    // one addition is skipped instead
    | Receive                                 // the event loop takes an event
    | Abort                                   // ... an addition: AbortDeletion
    | Launch                                  // ... an addition: start a scheduler unless there is one
    | Detach                                  // ... a removal: delete the map entry
    | Cancel                                  // ... call the cancel function
    | Mark                                    // ... MarkForDeletion
    | Scrape                                  // collect expired marks
    | Delete(a: Str)                          // run the delete callback for one collected address

  predicate Enabled(c: Config, step: Step)
  {
    match step
    case Operate(op, evs) => c.outbox == [] && Announces(c.reg, op, evs)
    case Emit => c.outbox != [] && |c.queue| < CAPACITY
    case Drop => c.outbox != [] && c.outbox[0].isAdded
    case Receive => c.hand == Idle && c.queue != []
    case Abort => c.hand.Taken? && c.hand.e.isAdded
    case Launch => c.hand.Cleared?
    case Detach => c.hand.Taken? && !c.hand.e.isAdded
    case Cancel => c.hand.Detached?
    case Mark => c.hand.Stopping?
    case Scrape => true
    case Delete(a) => a in c.toDelete
  }

  function DoAbort(c: Config): Config
    requires Enabled(c, Abort)
  {
    var a, p := c.hand.e.target.address, c.loop.pending;
    c.(hand := Cleared(c.hand.e),
       loop := c.loop.(pending := MC.Aborted(p, a)),
       tally := if a in p then c.tally.(aborted := c.tally.aborted + multiset{a}) else c.tally)
  }

  function DoDetach(c: Config): Config
    requires Enabled(c, Detach)
  {
    var a := c.hand.e.target.address;
    if a in c.loop.sched then
      c.(hand := Detached(a, c.loop.sched[a]), loop := c.loop.(sched := c.loop.sched - {a}))
    else c.(hand := Idle)
  }

  function DoMark(c: Config): Config
    requires Enabled(c, Mark)
  {
    var a, p := c.hand.a, c.loop.pending;
    c.(hand := Idle,
       loop := c.loop.(pending := MC.Marked(p, a)),
       tally := c.tally.(marked := c.tally.marked + multiset{a},
                         overwritten := c.tally.overwritten + (if a in p then multiset{a} else multiset{})))
  }

  function DoScrape(c: Config): Config
  {
    var expired := multiset(MC.Expired(c.loop.pending));
    c.(loop := c.loop.(pending := MC.Scraped(c.loop.pending)),
       toDelete := c.toDelete + expired,
       tally := c.tally.(collected := c.tally.collected + expired))
  }

  function Do(c: Config, step: Step): Config
    requires Enabled(c, step)
  {
    match step
    case Operate(op, evs) => c.(reg := After(c.reg, op), outbox := evs)
    case Emit => c.(queue := c.queue + [c.outbox[0]], outbox := c.outbox[1..])
    case Drop => c.(outbox := c.outbox[1..], lost := c.lost + {c.outbox[0].target.address})
    case Receive => c.(hand := Taken(c.queue[0]), queue := c.queue[1..])
    case Abort => DoAbort(c)
    case Launch => c.(hand := Idle, loop := StartFor(c.loop, c.hand.e.target))
    case Detach => DoDetach(c)
    case Cancel => c.(hand := Stopping(c.hand.a), loop := c.loop.(cancelled := c.loop.cancelled + {c.hand.id}))
    case Mark => DoMark(c)
    case Scrape => DoScrape(c)
    case Delete(a) =>
      c.(toDelete := c.toDelete - multiset{a}, tally := c.tally.(deleted := c.tally.deleted + multiset{a}))
  }

  /** Where `steps` lead from the start, if each is enabled when its turn comes. */
  function Exec(claims: Claim, steps: seq<Step>): Option<Config>
  {
    if steps == [] then Some(Start(claims))
    else
      var last := steps[|steps| - 1];
      match Exec(claims, steps[..|steps| - 1])
      case None => None
      case Some(c) => if Enabled(c, last) then Some(Do(c, last)) else None
  }

  ghost predicate Reachable(claims: Claim, c: Config)
  {
    exists steps :: Exec(claims, steps) == Some(c)
  }

  /** Undisturbed, the loop's small steps on an event amount to handling it in one go. */
  lemma SmallStepsHandle(c: Config)
    requires c.hand.Taken?
    ensures c.hand.e.isAdded ==>
      var d := Do(Do(c, Abort), Launch); d.hand == Idle && d.loop == Handle(c.loop, c.hand.e)
    ensures !c.hand.e.isAdded && c.hand.e.target.address in c.loop.sched ==>
      var d := Do(Do(Do(c, Detach), Cancel), Mark); d.hand == Idle && d.loop == Handle(c.loop, c.hand.e)
    ensures !c.hand.e.isAdded && c.hand.e.target.address !in c.loop.sched ==>
      var d := Do(c, Detach); d.hand == Idle && d.loop == Handle(c.loop, c.hand.e)
  {
  }

  // ---------------------------------------------------------------- events on their way

  /** The events the loop has still to act on, oldest first. */
  function Underway(c: Config): seq<TargetEvent>
  {
    (if c.hand.Taken? || c.hand.Cleared? then [c.hand.e] else []) + c.queue + c.outbox
  }

  /** The addresses that will have a scheduler when everything under way has been handled. */
  function Settled(c: Config): set<Str>
  {
    Replay(c.loop.sched.Keys, Underway(c))
  }

  ghost predicate Resting(c: Config)
  {
    c.outbox == [] && c.queue == [] && c.hand == Idle
  }

  lemma RestingSettled(c: Config)
    requires Resting(c)
    ensures Settled(c) == c.loop.sched.Keys
  {
    assert Underway(c) == [];
  }

  // ---------------------------------------------------------------- the simulation invariant

  /** Whatever is under way, the outcome covers no more than the active set, and lacks only lost additions. */
  ghost predicate Simulates(c: Config)
  {
    && Consistent(c.reg)
    && (c.hand.Cleared? ==> c.hand.e.isAdded)
    && Settled(c) <= ActiveSet(c.reg)
    && ActiveSet(c.reg) - Settled(c) <= c.lost
  }

  lemma OperateSimulates(c: Config, op: Op, evs: seq<TargetEvent>)
    requires Simulates(c) && Enabled(c, Operate(op, evs))
    ensures Simulates(Do(c, Operate(op, evs)))
  {
    var d := Do(c, Operate(op, evs));
    StepConsistent(c.reg, op);
    assert Underway(d) == Underway(c) + evs;
    ReplayAppend(c.loop.sched.Keys, Underway(c), evs);
    ReplayMonotone(Settled(c), ActiveSet(c.reg), evs);
    ReplayAnnounced(c.reg, op, evs);
  }

  lemma DropSimulates(c: Config)
    requires Simulates(c) && Enabled(c, Drop)
    ensures Simulates(Do(c, Drop))
  {
    var d := Do(c, Drop);
    var front := (if c.hand.Taken? || c.hand.Cleared? then [c.hand.e] else []) + c.queue;
    assert Underway(c) == front + [c.outbox[0]] + c.outbox[1..];
    assert Underway(d) == front + c.outbox[1..];
    ReplaySkip(c.loop.sched.Keys, front, c.outbox[0], c.outbox[1..]);
  }

  /** The loop's own acts do what the event in its hand says. */
  lemma LoopActs(c: Config, step: Step)
    requires Enabled(c, step) && (step.Launch? || step.Detach?) && (c.hand.Cleared? ==> c.hand.e.isAdded)
    ensures Settled(Do(c, step)) == Settled(c)
  {
    var d, e := Do(c, step), c.hand.e;
    var live := if e.isAdded then c.loop.sched.Keys + {e.target.address} else c.loop.sched.Keys - {e.target.address};
    assert Underway(c) == [e] + Underway(d);
    assert Underway(c)[1..] == Underway(d);
    assert d.loop.sched.Keys == live;
  }

  /** The steps of emission and of the event loop leave the outcome as it is. */
  lemma OtherStepSettles(c: Config, step: Step)
    requires Enabled(c, step) && !step.Operate? && !step.Drop? && (c.hand.Cleared? ==> c.hand.e.isAdded)
    ensures Settled(Do(c, step)) == Settled(c)
  {
    if step.Launch? || step.Detach? {
      LoopActs(c, step);
    } else {
      assert Underway(Do(c, step)) == Underway(c);
    }
  }

  lemma StepSimulates(c: Config, step: Step)
    requires Simulates(c) && Enabled(c, step)
    ensures Simulates(Do(c, step))
  {
    match step
    case Operate(op, evs) => OperateSimulates(c, op, evs);
    case Drop => DropSimulates(c);
    case _ => OtherStepSettles(c, step);
  }

  // ---------------------------------------------------------------- schedulers

  /** The schedulers started and not cancelled are the ones stored in the map, each under its own address; the only
      exception is the one just taken out of the map and about to be cancelled. */
  ghost predicate Accounted(c: Config)
  {
    && (forall a :: a in c.loop.sched ==>
          c.loop.sched[a] < |c.loop.started| && c.loop.started[c.loop.sched[a]].address == a)
    && (forall a :: a in c.loop.sched ==> c.loop.sched[a] !in c.loop.cancelled)
    && (forall id :: id in c.loop.cancelled ==> id < |c.loop.started|)
    && (forall id: nat :: id < |c.loop.started| && id !in c.loop.cancelled ==>
          var a := c.loop.started[id].address;
          (a in c.loop.sched && c.loop.sched[a] == id) || c.hand == Detached(a, id))
    && (c.hand.Detached? ==>
          && c.hand.id < |c.loop.started| && c.loop.started[c.hand.id].address == c.hand.a
          && c.hand.a !in c.loop.sched && c.hand.id !in c.loop.cancelled)
  }

  lemma StepAccounted(c: Config, step: Step)
    requires Accounted(c) && Enabled(c, step)
    ensures Accounted(Do(c, step))
  {
    match step
    case Launch =>
    case Detach =>
    case Cancel =>
    case _ =>
      assert Do(c, step).loop.sched == c.loop.sched && Do(c, step).loop.started == c.loop.started;
  }

  // ---------------------------------------------------------------- deferred deletion

  /** No address is both scheduled and pending deletion, at any moment. */
  ghost predicate Separated(c: Config)
  {
    && c.loop.pending.Keys !! c.loop.sched.Keys
    && (forall a :: a in c.loop.pending ==> c.loop.pending[a] == 1)
    && (c.hand.Cleared? ==> c.hand.e.target.address !in c.loop.pending)
    && (c.hand.Detached? || c.hand.Stopping? ==> c.hand.a !in c.loop.sched && c.hand.a !in c.loop.pending)
  }

  lemma StepSeparated(c: Config, step: Step)
    requires Separated(c) && Enabled(c, step)
    ensures Separated(Do(c, step))
  {
  }

  /** Every mark is accounted for: collected, aborted or still pending; none is ever overwritten.  What was collected
      has been deleted or awaits its callback. */
  ghost predicate Balanced(c: Config)
  {
    && c.tally.overwritten == multiset{}
    && c.tally.marked == c.tally.collected + c.tally.aborted + multiset(c.loop.pending.Keys)
    && c.tally.collected == c.tally.deleted + c.toDelete
  }

  lemma ScrapeBalanced(c: Config)
    requires Separated(c) && Balanced(c)
    ensures Balanced(DoScrape(c))
  {
    assert MC.Expired(c.loop.pending) == c.loop.pending.Keys;
    assert MC.Scraped(c.loop.pending).Keys == {};
  }

  lemma AbortBalanced(c: Config)
    requires Balanced(c) && Enabled(c, Abort)
    ensures Balanced(DoAbort(c))
  {
    var a, p := c.hand.e.target.address, c.loop.pending;
    assert MC.Aborted(p, a).Keys == p.Keys - {a};
    if a in p {
      assert multiset(p.Keys) == multiset(p.Keys - {a}) + multiset{a};
    } else {
      assert p.Keys - {a} == p.Keys;
    }
  }

  lemma MarkBalanced(c: Config)
    requires Separated(c) && Balanced(c) && Enabled(c, Mark)
    ensures Balanced(DoMark(c))
  {
    var a, p := c.hand.a, c.loop.pending;
    assert MC.Marked(p, a).Keys == p.Keys + {a};
    assert multiset(p.Keys + {a}) == multiset(p.Keys) + multiset{a};
  }

  lemma DeleteBalanced(c: Config, a: Str)
    requires Balanced(c) && Enabled(c, Delete(a))
    ensures Balanced(Do(c, Delete(a)))
  {
    assert c.toDelete == (c.toDelete - multiset{a}) + multiset{a};
  }

  lemma StepBalanced(c: Config, step: Step)
    requires Separated(c) && Balanced(c) && Enabled(c, step)
    ensures Balanced(Do(c, step))
  {
    match step
    case Scrape => ScrapeBalanced(c);
    case Abort => AbortBalanced(c);
    case Mark => MarkBalanced(c);
    case Delete(a) => DeleteBalanced(c, a);
    case _ => assert Do(c, step).loop.pending == c.loop.pending;
  }

  // ---------------------------------------------------------------- all reachable configurations

  ghost predicate Good(c: Config)
  {
    Simulates(c) && Accounted(c) && Separated(c) && Balanced(c) && |c.queue| <= CAPACITY
  }

  lemma StepGood(c: Config, step: Step)
    requires Good(c) && Enabled(c, step)
    ensures Good(Do(c, step)) && Do(c, step).reg.claims == c.reg.claims
  {
    hide Simulates, Accounted, Separated, Balanced;
    StepSimulates(c, step);
    StepAccounted(c, step);
    StepSeparated(c, step);
    StepBalanced(c, step);
  }

  lemma {:induction false} ExecGood(claims: Claim, steps: seq<Step>)
    requires Exec(claims, steps).Some?
    ensures Good(Exec(claims, steps).value) && Exec(claims, steps).value.reg.claims == claims
  {
    if steps == [] {
      InitConsistent(claims);
    } else {
      ExecGood(claims, steps[..|steps| - 1]);
      StepGood(Exec(claims, steps[..|steps| - 1]).value, steps[|steps| - 1]);
    }
  }

  lemma ReachableGood(claims: Claim, c: Config)
    requires Reachable(claims, c)
    ensures Good(c) && c.reg.claims == claims
  {
    var steps :| Exec(claims, steps) == Some(c);
    ExecGood(claims, steps);
  }

  /** The registry of a reachable configuration went through some history of operations. */
  lemma {:induction false} RegistryHistory(claims: Claim, steps: seq<Step>) returns (ops: seq<Op>)
    requires Exec(claims, steps).Some?
    ensures Exec(claims, steps).value.reg == Run(RegistryState.Init(claims), ops)
  {
    if steps == [] {
      ops := [];
    } else {
      var last := steps[|steps| - 1];
      ops := RegistryHistory(claims, steps[..|steps| - 1]);
      if last.Operate? {
        var more := ops + [last.op];
        assert more[..|more| - 1] == ops;
        ops := more;
      }
    }
  }

  /** The targets this replica should probe. */
  function Owned(s: State): set<Str>
  {
    set a | a in s.targets && Mine(s, a)
  }

  lemma ActiveIsOwned(s: State)
    requires Consistent(s)
    ensures ActiveSet(s) == Owned(s)
  {
  }

  /** No leaked scheduler: even when additions are dropped, handling everything under way leaves schedulers only for
      targets this replica owns, and the ones missing are among the dropped. */
  lemma NoLeakedScheduler(claims: Claim, c: Config)
    requires Reachable(claims, c)
    ensures Settled(c) <= Owned(c.reg) && Owned(c.reg) - Settled(c) <= c.lost
  {
    ReachableGood(claims, c);
    ActiveIsOwned(c.reg);
  }

  /** When nothing was dropped, the schedulers at rest are exactly those of the owned targets. */
  lemma SchedulersMatchOwnership(claims: Claim, c: Config)
    requires Reachable(claims, c) && c.lost == {}
    ensures Settled(c) == Owned(c.reg)
    ensures Resting(c) ==> c.loop.sched.Keys == Owned(c.reg)
  {
    NoLeakedScheduler(claims, c);
    forall a | a in Owned(c.reg)
      ensures a in Settled(c)
    {
      assert a !in Settled(c) ==> a in Owned(c.reg) - Settled(c);
    }
    if Resting(c) {
      RestingSettled(c);
    }
  }

  /** At every moment an address has at most one scheduler that has not been cancelled, and unless the loop is just
      stopping it, it is the one stored in the map. */
  lemma OneSchedulerPerAddress(claims: Claim, c: Config, i: nat, j: nat)
    requires Reachable(claims, c)
    requires i < |c.loop.started| && j < |c.loop.started| && c.loop.started[i].address == c.loop.started[j].address
    requires i !in c.loop.cancelled && j !in c.loop.cancelled
    ensures i == j
    ensures var a := c.loop.started[i].address; !c.hand.Detached? ==> a in c.loop.sched && c.loop.sched[a] == i
  {
    ReachableGood(claims, c);
  }

  /** No address is ever both pending deletion and scheduled, so a scrape collects none that has a scheduler; no mark is
      overwritten, and every mark is collected, aborted or pending. */
  lemma ScrapesAreSafe(claims: Claim, c: Config)
    requires Reachable(claims, c)
    ensures c.loop.pending.Keys !! c.loop.sched.Keys && MC.Expired(c.loop.pending) <= c.loop.pending.Keys
    ensures c.tally.overwritten == multiset{}
    ensures c.tally.marked == c.tally.collected + c.tally.aborted + multiset(c.loop.pending.Keys)
    ensures c.tally.collected == c.tally.deleted + c.toDelete
  {
    ReachableGood(claims, c);
  }

  // ---------------------------------------------------------------- deletions outside the lock

  /** Nothing awaiting its delete callback has a scheduler. */
  ghost predicate DeletesSafe(c: Config)
  {
    forall a :: a in c.toDelete ==> a !in c.loop.sched
  }

  /** The callbacks run after the cleaner's lock is released.  The one step after which a callback can hit a running
      target is the start of a scheduler for an address that a scrape has collected and not yet deleted. */
  lemma DeletesSafeIff(c: Config, step: Step)
    requires Separated(c) && DeletesSafe(c) && Enabled(c, step)
    ensures DeletesSafe(Do(c, step)) <==> !(step.Launch? && c.hand.e.target.address in c.toDelete)
  {
    if step.Launch? {
      assert c.hand.e.target.address in Do(c, step).loop.sched;
    }
  }

  lemma Extend(claims: Claim, c: Config, step: Step)
    requires Reachable(claims, c) && Enabled(c, step)
    ensures Reachable(claims, Do(c, step))
  {
    var steps :| Exec(claims, steps) == Some(c);
    var more := steps + [step];
    assert more[..|more| - 1] == steps;
    assert Exec(claims, more) == Some(Do(c, step));
  }

  /** A single event, already computed, travels through the channel into the loop's hand. */
  lemma Deliver(claims: Claim, c: Config, e: TargetEvent) returns (d: Config)
    requires Reachable(claims, c) && c.outbox == [e] && c.queue == [] && c.hand == Idle
    ensures Reachable(claims, d) && d == c.(outbox := [], hand := Taken(e))
  {
    hide Reachable;
    Extend(claims, c, Emit);
    d := Do(c, Emit);
    Extend(claims, d, Receive);
    d := Do(d, Receive);
  }

  /** The addition of a static target this replica owns announces it. */
  lemma AddOperates(claims: Claim, c: Config, t: Target, e: TargetEvent) returns (d: Config)
    requires Reachable(claims, c) && c.outbox == [] && e == TargetEvent(t, true)
    requires t.isStatic && t.address !in c.reg.targets && Mine(c.reg, t.address)
    ensures Reachable(claims, d) && d == c.(reg := AfterAdd(c.reg, t), outbox := [e])
  {
    ReachableGood(claims, c);
    AddDone(c.reg, t, [e]);
    hide Announces, Good, Reachable, AfterAdd;
    Extend(claims, c, Operate(Op.Add(t), [e]));
    d := Do(c, Operate(Op.Add(t), [e]));
  }

  /** From rest, an operation that announces one addition, and its handling. */
  lemma AdditionRound(claims: Claim, c: Config, op: Op, e: TargetEvent) returns (d: Config)
    requires Reachable(claims, c) && Resting(c) && Announces(c.reg, op, [e]) && e.isAdded
    ensures Reachable(claims, d) && Resting(d) && d.toDelete == c.toDelete
    ensures d.reg == After(c.reg, op) && d.loop == Handle(c.loop, e)
  {
    hide Reachable, Announces, After;
    Extend(claims, c, Operate(op, [e]));
    d := Deliver(claims, Do(c, Operate(op, [e])), e);
    Extend(claims, d, Abort);
    d := Do(d, Abort);
    Extend(claims, d, Launch);
    d := Do(d, Launch);
  }

  lemma AddRound(claims: Claim, c: Config, t: Target) returns (d: Config)
    requires Reachable(claims, c) && Resting(c)
    requires t.isStatic && t.address !in c.reg.targets && Mine(c.reg, t.address) && t.address !in c.loop.sched
    ensures Reachable(claims, d) && Resting(d) && d.toDelete == c.toDelete
    ensures d.reg == AfterAdd(c.reg, t) && t.address in d.loop.sched
  {
    ReachableGood(claims, c);
    AddDone(c.reg, t, [TargetEvent(t, true)]);
    hide Reachable, Announces, AfterAdd, Good;
    d := AdditionRound(claims, c, Op.Add(t), TargetEvent(t, true));
  }

  lemma RemoveRound(claims: Claim, c: Config, a: Str) returns (d: Config)
    requires Reachable(claims, c) && Resting(c) && a in c.reg.targets && Mine(c.reg, a) && a in c.loop.sched
    ensures Reachable(claims, d) && Resting(d) && d.toDelete == c.toDelete
    ensures d.reg == AfterRemove(c.reg, a) && a !in d.loop.sched && d.loop.pending == MC.Marked(c.loop.pending, a)
  {
    ReachableGood(claims, c);
    var e := TargetEvent(c.reg.targets[a], false);
    RemoveDone(c.reg, a, [e]);
    assert e.target.address == a;
    hide Announces, ActiveSet, Good, Reachable, Exec, AfterRemove;
    Extend(claims, c, Operate(Op.Remove(a), [e]));
    d := Deliver(claims, Do(c, Operate(Op.Remove(a), [e])), e);
    Extend(claims, d, Detach);
    d := Do(d, Detach);
    Extend(claims, d, Cancel);
    d := Do(d, Cancel);
    Extend(claims, d, Mark);
    d := Do(d, Mark);
  }

  /** That step does occur: a static target removed, scraped and added again can have its metrics deleted while it is
      being probed. */
  lemma DeletionCanHitRunningTarget(claims: Claim, t: Target) returns (c: Config)
    requires t.isStatic && claims(t.address, [])
    ensures Reachable(claims, c) && t.address in c.loop.sched && Enabled(c, Delete(t.address))
  {
    c := Start(claims);
    assert Exec(claims, []) == Some(c);
    c := AddRound(claims, c, t);
    c := RemoveRound(claims, c, t.address);
    Extend(claims, c, Scrape);
    c := Do(c, Scrape);
    ReachableGood(claims, c);
    c := AddRound(claims, c, t);
  }
}

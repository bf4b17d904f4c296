/** What holds over whole runs of the control loop: gaps left by dropped additions, deletions that hit running
    targets, and how a run comes to rest. */
module LoopRuns {
  import opened Bytes
  import opened Targets
  import opened RegistryState
  import opened RegistryLaws
  import opened EventOrder
  import opened EventLoop
  import opened ControlLoop
  import MC = MetricsCleaner

  // ---------------------------------------------------------------- runs

  /** The configuration after the first `i` steps of a run. */
  function At(claims: Claim, steps: seq<Step>, i: nat): Config
    requires i <= |steps|
  {
    match Exec(claims, steps[..i])
    case Some(c) => c
    case None => Start(claims)
  }

  type Kind = (Config, Step) -> bool

  /** Some step of the run is of the kind `opens`, and none after it of the kind `closes`. */
  ghost predicate Unclosed(claims: Claim, steps: seq<Step>, opens: Kind, closes: Kind)
  {
    exists i :: 0 <= i < |steps| && opens(At(claims, steps, i), steps[i]) && NoneFrom(claims, steps, closes, i + 1)
  }

  ghost predicate NoneFrom(claims: Claim, steps: seq<Step>, kind: Kind, from: nat)
  {
    forall j :: from <= j < |steps| ==> !kind(At(claims, steps, j), steps[j])
  }

  lemma FrontAt(claims: Claim, steps: seq<Step>, n: nat, i: nat)
    requires i <= n <= |steps|
    ensures At(claims, steps[..n], i) == At(claims, steps, i)
  {
    assert steps[..n][..i] == steps[..i];
  }

  lemma UnclosedStep(claims: Claim, steps: seq<Step>, opens: Kind, closes: Kind)
    requires steps != []
    ensures var n := |steps| - 1; var c := At(claims, steps, n);
      Unclosed(claims, steps, opens, closes) <==>
        (Unclosed(claims, steps[..n], opens, closes) && !closes(c, steps[n])) || opens(c, steps[n])
  {
    hide At;
    var n := |steps| - 1;
    var front := steps[..n];
    forall i | 0 <= i <= n
      ensures At(claims, front, i) == At(claims, steps, i)
    {
      FrontAt(claims, steps, n, i);
    }
    if Unclosed(claims, steps, opens, closes) {
      var i :| 0 <= i < |steps| && opens(At(claims, steps, i), steps[i]) && NoneFrom(claims, steps, closes, i + 1);
      if i < n {
        assert opens(At(claims, front, i), front[i]) && NoneFrom(claims, front, closes, i + 1);
      }
    }
    if Unclosed(claims, front, opens, closes) && !closes(At(claims, steps, n), steps[n]) {
      var i :| 0 <= i < n && opens(At(claims, front, i), front[i]) && NoneFrom(claims, front, closes, i + 1);
      assert opens(At(claims, steps, i), steps[i]) && NoneFrom(claims, steps, closes, i + 1);
    }
    if opens(At(claims, steps, n), steps[n]) {
      assert NoneFrom(claims, steps, closes, n + 1);
    }
  }

  lemma LastAt(claims: Claim, steps: seq<Step>)
    requires steps != [] && Exec(claims, steps).Some?
    ensures var n := |steps| - 1; var c := At(claims, steps, n);
      && Exec(claims, steps[..n]) == Some(c) && Enabled(c, steps[n]) && Exec(claims, steps) == Some(Do(c, steps[n]))
  {
  }

  // ---------------------------------------------------------------- lost additions

  /** `a` is active in the registry, yet will have no scheduler. */
  ghost predicate Missing(c: Config, a: Str)
  {
    a in ActiveSet(c.reg) && a !in Settled(c)
  }

  /** The events the channel has handed over or holds. */
  function Emitted(c: Config): seq<TargetEvent>
  {
    (if c.hand.Taken? || c.hand.Cleared? then [c.hand.e] else []) + c.queue
  }

  /** The step drops the addition of an address that has no scheduler coming from anywhere else. */
  predicate Opens(c: Config, step: Step, a: Str)
  {
    step.Drop? && c.outbox != [] && c.outbox[0].target.address == a && a !in Replay(c.loop.sched.Keys, Emitted(c))
  }

  /** The step is an operation that deactivates the target or makes it static. */
  predicate Closes(c: Config, step: Step, a: Str)
  {
    step.Operate? && (a in Stopped(c.reg, step.op) || (Upgrades(c.reg, step.op) && step.op.target.address == a))
  }

  /** The events still to be emitted are one per address, and the additions among them are of active targets. */
  ghost predicate Proper(c: Config)
  {
    Distinct(c.outbox) && Addresses(c.outbox, true) <= ActiveSet(c.reg)
  }

  lemma StepProper(c: Config, step: Step)
    requires Proper(c) && Consistent(c.reg) && Enabled(c, step)
    ensures Proper(Do(c, step))
  {
    var d := Do(c, step);
    match step
    case Operate(op, evs) =>
      StepConsistent(c.reg, op);
      assert Started(c.reg, op) <= ActiveSet(After(c.reg, op));
    case Emit => DistinctTail(c.outbox);
    case Drop => DistinctTail(c.outbox);
    case _ => assert d.outbox == c.outbox && d.reg == c.reg;
  }

  /** What is dropped is the first of the events to be emitted. */
  lemma DropSplits(c: Config)
    requires Enabled(c, Drop)
    ensures Underway(c) == Emitted(c) + [c.outbox[0]] + c.outbox[1..]
    ensures Underway(Do(c, Drop)) == Emitted(c) + c.outbox[1..]
  {
  }

  /** A drop costs the address of the dropped addition, unless it has a scheduler coming from an earlier event. */
  lemma DropSettles(c: Config)
    requires Proper(c) && Enabled(c, Drop)
    ensures var a := c.outbox[0].target.address;
      && Settled(c) == Settled(Do(c, Drop)) + {a}
      && (a in Settled(Do(c, Drop)) <==> a in Replay(c.loop.sched.Keys, Emitted(c)))
  {
    var live, e, rest := Replay(c.loop.sched.Keys, Emitted(c)), c.outbox[0], c.outbox[1..];
    DropSplits(c);
    DistinctTail(c.outbox);
    hide Underway, Emitted, Addresses, Distinct, Do, Enabled;
    ReplayAppend(c.loop.sched.Keys, Emitted(c), c.outbox);
    ReplayAppend(c.loop.sched.Keys, Emitted(c), rest);
    assert c.outbox == [e] + rest && Emitted(c) + [e] + rest == Emitted(c) + c.outbox;
    ReplayDistinct(live, rest);
    ReplayDistinct(live + {e.target.address}, rest);
  }

  lemma DropMisses(c: Config, a: Str)
    requires Proper(c) && Enabled(c, Drop)
    ensures Missing(Do(c, Drop), a) <==> Missing(c, a) || Opens(c, Drop, a)
  {
    DropSettles(c);
    assert c.outbox[0].target.address in Addresses(c.outbox, true);
  }

  lemma OperateMisses(c: Config, op: Op, evs: seq<TargetEvent>, a: Str)
    requires Good(c) && Enabled(c, Operate(op, evs))
    ensures Missing(Do(c, Operate(op, evs)), a) <==> Missing(c, a) && !Closes(c, Operate(op, evs), a)
  {
    OperateSettles(c, op, evs);
    assert a in ActiveSet(After(c.reg, op)) <==>
      (a in ActiveSet(c.reg) && a !in Stopped(c.reg, op)) || a in Started(c.reg, op) by {
      StepConsistent(c.reg, op);
    }
    hide After, Announces, Consistent, Settled, Accounted, Separated, Balanced;
  }

  lemma OperateSettles(c: Config, op: Op, evs: seq<TargetEvent>)
    requires Enabled(c, Operate(op, evs))
    ensures Settled(Do(c, Operate(op, evs))) == Settled(c) - Stopped(c.reg, op) + Started(c.reg, op)
  {
    var d := Do(c, Operate(op, evs));
    assert Underway(d) == Underway(c) + evs;
    ReplayAppend(c.loop.sched.Keys, Underway(c), evs);
    ReplayDistinct(Settled(c), evs);
  }

  /** A scheduler goes missing exactly when the only addition of its target is dropped, and stays missing through every
      step, resync and rebalancing included, until exactly an operation that deactivates the target or makes it
      static. */
  lemma MissingStep(c: Config, step: Step, a: Str)
    requires Good(c) && Proper(c) && Enabled(c, step)
    ensures Missing(Do(c, step), a) <==> (Missing(c, a) && !Closes(c, step, a)) || Opens(c, step, a)
  {
    match step
    case Operate(op, evs) => OperateMisses(c, op, evs, a);
    case Drop => DropMisses(c, a);
    case _ => OtherStepSettles(c, step);
  }

  function Opening(a: Str): Kind
  {
    (c: Config, step: Step) => Opens(c, step, a)
  }

  function Closing(a: Str): Kind
  {
    (c: Config, step: Step) => Closes(c, step, a)
  }

  /** Somewhere on the run the addition of `a` was dropped for good: no later operation has closed the gap. */
  ghost predicate LeftOpen(claims: Claim, steps: seq<Step>, a: Str)
  {
    Unclosed(claims, steps, Opening(a), Closing(a))
  }

  /** Over a whole run: a target is missing its scheduler exactly when its gap was opened and never closed since. */
  lemma {:induction false} MissingIff(claims: Claim, steps: seq<Step>, a: Str)
    requires Exec(claims, steps).Some?
    ensures Proper(Exec(claims, steps).value)
    ensures Missing(Exec(claims, steps).value, a) <==> LeftOpen(claims, steps, a)
  {
    if steps == [] {
    } else {
      hide Missing, Proper, Good, Unclosed, Opens, Closes, Do, Enabled, At;
      var n := |steps| - 1;
      LastAt(claims, steps);
      MissingIff(claims, steps[..n], a);
      ExecGood(claims, steps[..n]);
      var c := At(claims, steps, n);
      GoodConsistent(c);
      StepProper(c, steps[n]);
      MissingStep(c, steps[n], a);
      UnclosedStep(claims, steps, Opening(a), Closing(a));
    }
  }

  lemma GoodConsistent(c: Config)
    requires Good(c)
    ensures Consistent(c.reg) && ActiveSet(c.reg) == Owned(c.reg) && Settled(c) <= ActiveSet(c.reg)
  {
    ActiveIsOwned(c.reg);
  }

  /** The outcome is exactly the owned targets after exactly those runs on which every gap was closed again.  A target
      whose addition was dropped and then removed does no harm; one that stays registered does, through every resync.
      */
  lemma SettledIff(claims: Claim, steps: seq<Step>)
    requires Exec(claims, steps).Some?
    ensures var c := Exec(claims, steps).value;
      && (Settled(c) == Owned(c.reg) <==> forall a :: !LeftOpen(claims, steps, a))
      && (Resting(c) ==> Settled(c) == c.loop.sched.Keys)
  {
    var c := Exec(claims, steps).value;
    if Resting(c) {
      RestingSettled(c);
    }
    ExecGood(claims, steps);
    GoodConsistent(c);
    forall a
      ensures LeftOpen(claims, steps, a) <==> a in Owned(c.reg) && a !in Settled(c)
    {
      MissingIff(claims, steps, a);
    }
  }

  /** A gap does occur: a static target whose one addition meets a full channel is registered, owned, and without a
      scheduler when all has come to rest. */
  lemma DroppedAdditionLeavesGap(claims: Claim, t: Target) returns (c: Config)
    requires t.isStatic && claims(t.address, [])
    ensures Reachable(claims, c) && Resting(c) && Missing(c, t.address) && t.address in Owned(c.reg)
  {
    c := Start(claims);
    assert Exec(claims, []) == Some(c);
    c := AddOperates(claims, c, t, TargetEvent(t, true));
    Extend(claims, c, Drop);
    c := Do(c, Drop);
    assert Underway(c) == [];
  }

  // ---------------------------------------------------------------- deletions that hit running targets

  /** The step starts a scheduler for an address that a scrape has collected and no callback has deleted yet. */
  predicate Hits(c: Config, step: Step)
  {
    step.Launch? && c.hand.Cleared? && c.hand.e.target.address in c.toDelete
  }

  ghost predicate AlwaysDeletesSafe(claims: Claim, steps: seq<Step>)
  {
    forall i :: 0 <= i <= |steps| ==> DeletesSafe(At(claims, steps, i))
  }

  lemma SafeStep(claims: Claim, steps: seq<Step>)
    requires steps != []
    ensures var n := |steps| - 1;
      && (AlwaysDeletesSafe(claims, steps) <==>
            AlwaysDeletesSafe(claims, steps[..n]) && DeletesSafe(At(claims, steps, n + 1)))
      && (AlwaysDeletesSafe(claims, steps[..n]) ==> DeletesSafe(At(claims, steps, n)))
  {
    hide At, DeletesSafe;
    var n := |steps| - 1;
    forall i | 0 <= i <= n
      ensures At(claims, steps[..n], i) == At(claims, steps, i)
    {
      FrontAt(claims, steps, n, i);
    }
  }

  lemma NoneFromStep(claims: Claim, steps: seq<Step>, kind: Kind)
    requires steps != []
    ensures var n := |steps| - 1;
      NoneFrom(claims, steps, kind, 0) <==>
        NoneFrom(claims, steps[..n], kind, 0) && !kind(At(claims, steps, n), steps[n])
  {
    hide At;
    var n := |steps| - 1;
    forall i | 0 <= i <= n
      ensures At(claims, steps[..n], i) == At(claims, steps, i)
    {
      FrontAt(claims, steps, n, i);
    }
  }

  const HITTING: Kind := (c: Config, step: Step) => Hits(c, step)

  /** Over a whole run, no delete callback can ever hit a running target exactly when no step starts a scheduler for an
      address that is collected and not yet deleted. */
  lemma {:induction false} AlwaysDeletesSafeIff(claims: Claim, steps: seq<Step>)
    requires Exec(claims, steps).Some?
    ensures AlwaysDeletesSafe(claims, steps) <==> NoneFrom(claims, steps, HITTING, 0)
  {
    if steps == [] {
      assert At(claims, steps, 0) == Start(claims);
    } else {
      var n := |steps| - 1;
      LastAt(claims, steps);
      WholeAt(claims, steps);
      hide Exec, At, Do, Enabled, DeletesSafe, AlwaysDeletesSafe, NoneFrom, Good;
      AlwaysDeletesSafeIff(claims, steps[..n]);
      SafeStep(claims, steps);
      NoneFromStep(claims, steps, HITTING);
      ExecGood(claims, steps[..n]);
      HitsBreakSafety(At(claims, steps, n), steps[n]);
    }
  }

  lemma HitsBreakSafety(c: Config, step: Step)
    requires Good(c) && Enabled(c, step)
    ensures DeletesSafe(c) ==> (DeletesSafe(Do(c, step)) <==> !Hits(c, step))
  {
    if DeletesSafe(c) {
      hide DeletesSafe, Do;
      DeletesSafeIff(c, step);
    }
  }

  lemma WholeAt(claims: Claim, steps: seq<Step>)
    requires Exec(claims, steps).Some?
    ensures Exec(claims, steps) == Some(At(claims, steps, |steps|))
  {
    assert steps[..|steps|] == steps;
  }

  // ---------------------------------------------------------------- coming to rest

  /** A step of emission or of the event loop. */
  predicate Advances(step: Step)
  {
    !step.Operate? && !step.Scrape? && !step.Delete?
  }

  /** How many such steps are left at most. */
  function Distance(c: Config): nat
  {
    5 * |c.outbox| + 4 * |c.queue| +
    match c.hand
    case Idle => 0
    case Taken(_) => 3
    case Cleared(_) => 1
    case Detached(_, _) => 2
    case Stopping(_) => 1
  }

  lemma AdvanceShrinks(c: Config, step: Step)
    requires Enabled(c, step) && Advances(step)
    ensures Distance(Do(c, step)) < Distance(c)
  {
    match step
    case Detach => assert Do(c, step).outbox == c.outbox && Do(c, step).queue == c.queue;
    case _ =>
  }

  /** Unless all is at rest, emission or the event loop can go on without dropping anything, full channel or not. */
  lemma NextAdvance(c: Config) returns (step: Step)
    requires !Resting(c)
    ensures Enabled(c, step) && Advances(step) && !step.Drop?
  {
    match c.hand
    case Taken(e) => step := if e.isAdded then Abort else Detach;
    case Cleared(_) => step := Launch;
    case Detached(_, _) => step := Cancel;
    case Stopping(_) => step := Mark;
    case Idle => step := if c.queue != [] then Receive else Emit;
  }

  /** The channel takes up to a thousand events. */
  lemma ChannelHoldsThousand(c: Config)
    requires c.outbox != []
    ensures Enabled(c, Emit) <==> |c.queue| < 1000
  {
  }

  predicate AllAdvance(steps: seq<Step>)
  {
    forall step :: step in steps ==> Advances(step) && !step.Drop?
  }

  lemma ExecMore(claims: Claim, steps: seq<Step>, more: seq<Step>)
    requires more != [] && Exec(claims, steps + more).Some?
    ensures var n := |more| - 1; var c := Exec(claims, steps + more[..n]);
      c.Some? && Enabled(c.value, more[n]) && Exec(claims, steps + more) == Some(Do(c.value, more[n]))
  {
    assert (steps + more)[..|steps + more| - 1] == steps + more[..|more| - 1];
  }

  /** Left alone, emission and loop take at most `Distance` steps more, and these leave registry and outcome as they
      are. */
  lemma {:induction false} AdvancesEnd(claims: Claim, steps: seq<Step>, more: seq<Step>)
    requires Exec(claims, steps + more).Some? && AllAdvance(more)
    ensures Exec(claims, steps).Some?
    ensures var c, d := Exec(claims, steps).value, Exec(claims, steps + more).value;
      |more| + Distance(d) <= Distance(c) && d.reg == c.reg && Settled(d) == Settled(c)
  {
    if more == [] {
      assert steps + more == steps;
    } else {
      var n := |more| - 1;
      ExecMore(claims, steps, more);
      AdvancesEnd(claims, steps, more[..n]);
      ExecGood(claims, steps + more[..n]);
      var d := Exec(claims, steps + more[..n]).value;
      assert more[n] in more;
      AdvanceShrinks(d, more[n]);
      AdvanceKeeps(d, more[n]);
      hide Exec, Distance, Settled, Do, Enabled;
    }
  }

  lemma AdvanceKeeps(c: Config, step: Step)
    requires Good(c) && Enabled(c, step) && Advances(step) && !step.Drop?
    ensures Settled(Do(c, step)) == Settled(c) && Do(c, step).reg == c.reg
  {
    OtherStepSettles(c, step);
  }

  lemma OneMore(claims: Claim, steps: seq<Step>, step: Step)
    requires Exec(claims, steps).Some? && Enabled(Exec(claims, steps).value, step)
    ensures Exec(claims, steps + [step]) == Some(Do(Exec(claims, steps).value, step))
  {
    hide Do, Enabled;
    assert (steps + [step])[..|steps|] == steps;
  }

  /** Rest is reached: every run can be continued by such steps until all is at rest, and wherever they stop for good,
      the schedulers are the outcome foreseen before them. */
  lemma {:induction false} ComesToRest(claims: Claim, steps: seq<Step>) returns (more: seq<Step>)
    requires Exec(claims, steps).Some?
    ensures AllAdvance(more) && Exec(claims, steps + more).Some?
    ensures var c, d := Exec(claims, steps).value, Exec(claims, steps + more).value;
      Resting(d) && d.reg == c.reg && d.loop.sched.Keys == Settled(c) && |more| <= Distance(c)
    decreases Distance(Exec(claims, steps).value)
  {
    hide Exec, Do, Enabled, Distance, Settled, Good, Resting, AllAdvance, Advances;
    var c := Exec(claims, steps).value;
    if Resting(c) {
      more := [];
      Joined(steps, [], []);
      AllAdvanceCons([], []);
      RestingSettled(c);
    } else {
      var step := NextAdvance(c);
      OneMore(claims, steps, step);
      AdvanceShrinks(c, step);
      ExecGood(claims, steps);
      AdvanceKeeps(c, step);
      var rest := ComesToRest(claims, steps + [step]);
      more := [step] + rest;
      Joined(steps, [step], rest);
      AllAdvanceCons([step], rest);
    }
  }

  lemma Joined(a: seq<Step>, b: seq<Step>, c: seq<Step>)
    ensures a + (b + c) == a + b + c && a + [] == a
  {
  }

  lemma AllAdvanceCons(first: seq<Step>, rest: seq<Step>)
    requires |first| <= 1 && forall step :: step in first ==> Advances(step) && !step.Drop?
    ensures AllAdvance(rest) ==> AllAdvance(first + rest)
    ensures AllAdvance([])
  {
  }
}

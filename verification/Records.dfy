/** Which target record a running scheduler probes with.  The event loop hands a scheduler the record of the addition
    that starts it and ignores further additions (main.go, lines 163-182), while a static definition replaces the
    registered record of a dynamic target (pkg/prober/registry.go, lines 238-258). */
module Records {
  import opened Bytes
  import opened Targets
  import opened RegistryState
  import opened RegistryLaws
  import opened EventOrder
  import opened EventLoop
  import opened ControlLoop
  import opened LoopRuns
  import Rendering

  /** The registered records of the active targets. */
  function ActiveRecords(s: State): map<Str, Target>
  {
    map a | a in ActiveSet(s) && a in s.targets :: s.targets[a]
  }

  /** The records schedulers run with once `evs` have been handled in order: an addition for a live address is
      ignored. */
  function ReplayRecords(live: map<Str, Target>, evs: seq<TargetEvent>): map<Str, Target>
    decreases |evs|
  {
    if evs == [] then live else ReplayRecords(HandleRecord(live, evs[0]), evs[1..])
  }

  function HandleRecord(live: map<Str, Target>, e: TargetEvent): map<Str, Target>
  {
    var a := e.target.address;
    if !e.isAdded then live - {a} else if a in live then live else live[a := e.target]
  }

  lemma {:induction false} RecordKeys(live: map<Str, Target>, evs: seq<TargetEvent>)
    ensures ReplayRecords(live, evs).Keys == Replay(live.Keys, evs)
    decreases |evs|
  {
    if evs != [] {
      var a := evs[0].target.address;
      assert HandleRecord(live, evs[0]).Keys == if evs[0].isAdded then live.Keys + {a} else live.Keys - {a};
      RecordKeys(HandleRecord(live, evs[0]), evs[1..]);
    }
  }

  lemma {:induction false} RecordsAppend(live: map<Str, Target>, evs: seq<TargetEvent>, more: seq<TargetEvent>)
    ensures ReplayRecords(live, evs + more) == ReplayRecords(ReplayRecords(live, evs), more)
    decreases |evs|
  {
    if evs == [] {
      assert evs + more == more;
    } else {
      assert (evs + more)[1..] == evs[1..] + more;
      RecordsAppend(HandleRecord(live, evs[0]), evs[1..], more);
    }
  }

  /** Events of other addresses leave a record alone. */
  lemma {:induction false} UntouchedRecord(live: map<Str, Target>, evs: seq<TargetEvent>, a: Str)
    requires a !in Addresses(evs, true) && a !in Addresses(evs, false)
    ensures a in ReplayRecords(live, evs) <==> a in live
    ensures a in live ==> ReplayRecords(live, evs)[a] == live[a]
    decreases |evs|
  {
    if evs != [] {
      assert evs == [evs[0]] + evs[1..];
      assert evs[0].target.address in Addresses(evs, evs[0].isAdded);
      UntouchedRecord(HandleRecord(live, evs[0]), evs[1..], a);
    }
  }

  /** With one event per address: a live record stays unless it is removed, and a new one is that of its addition. */
  lemma {:induction false} RecordAfter(live: map<Str, Target>, evs: seq<TargetEvent>, e: TargetEvent)
    requires Distinct(evs) && e in evs
    ensures var a, out := e.target.address, ReplayRecords(live, evs);
      if e.isAdded then a in out && out[a] == (if a in live then live[a] else e.target) else a !in out
    decreases |evs|
  {
    DistinctTail(evs);
    if e == evs[0] {
      UntouchedRecord(HandleRecord(live, e), evs[1..], e.target.address);
    } else {
      assert evs == [evs[0]] + evs[1..];
      assert e.target.address in Addresses(evs[1..], e.isAdded);
      RecordAfter(HandleRecord(live, evs[0]), evs[1..], e);
    }
  }

  /** What an operation's events do to one record. */
  lemma RecordChange(live: map<Str, Target>, s: State, op: Op, evs: seq<TargetEvent>, a: Str)
    requires Announces(s, op, evs)
    ensures var out := ReplayRecords(live, evs);
      if a in Stopped(s, op) then a !in out
      else if a in Started(s, op) then a in out && out[a] == (if a in live then live[a] else Payload(s, op, a, true))
      else (a in out <==> a in live) && (a in live ==> out[a] == live[a])
  {
    hide Stopped, Started, Payload;
    if a in Addresses(evs, false) {
      var e :| e in evs && !e.isAdded && e.target.address == a;
      RecordAfter(live, evs, e);
    } else if a in Addresses(evs, true) {
      var e :| e in evs && e.isAdded && e.target.address == a;
      RecordAfter(live, evs, e);
    } else {
      UntouchedRecord(live, evs, a);
    }
  }

  /** What an operation does to one registered record of an active target. */
  lemma ActiveRecordChange(s: State, op: Op, a: Str)
    requires Consistent(s)
    ensures var t := After(s, op);
      if a in Stopped(s, op) then a !in ActiveSet(t)
      else if a in Started(s, op) then a in ActiveSet(t) && a in t.targets && t.targets[a] == Payload(s, op, a, true)
      else (a in ActiveSet(t) <==> a in ActiveSet(s)) &&
           (a in ActiveSet(s) ==> a in s.targets && a in t.targets && t.targets[a] == s.targets[a])
  {
    StepConsistent(s, op);
  }

  /** An upgrade changes the record: the registered one is static now, the running one is not. */
  lemma UpgradeDiffers(s: State, op: Op)
    requires Consistent(s) && Upgrades(s, op)
    ensures var a := op.target.address;
      && a in s.targets && !s.targets[a].isStatic
      && a in After(s, op).targets && After(s, op).targets[a].isStatic
      && a in Started(s, op) && a !in Stopped(s, op)
  {
    StepConsistent(s, op);
  }

  lemma StartedWhileActive(s: State, op: Op, a: Str)
    requires a in Started(s, op) && a in ActiveSet(s)
    ensures Upgrades(s, op) && op.target.address == a
  {
  }

  /** The schedulers run with the registered records after an operation exactly unless it is an upgrade: a static
      definition of an active dynamic target never reaches the running scheduler. */
  lemma RecordsFollowIff(s: State, op: Op, evs: seq<TargetEvent>)
    requires Consistent(s) && Announces(s, op, evs)
    ensures ReplayRecords(ActiveRecords(s), evs) == ActiveRecords(After(s, op)) <==> !Upgrades(s, op)
  {
    var live, out, want := ActiveRecords(s), ReplayRecords(ActiveRecords(s), evs), ActiveRecords(After(s, op));
    if Upgrades(s, op) {
      var a := op.target.address;
      UpgradeDiffers(s, op);
      RecordChange(live, s, op, evs, a);
      ActiveRecordChange(s, op, a);
      assert out[a] != want[a];
    } else {
      forall a
        ensures a in out <==> a in want
        ensures a in want ==> out[a] == want[a]
      {
        RecordChange(live, s, op, evs, a);
        ActiveRecordChange(s, op, a);
        if a in Started(s, op) && a in ActiveSet(s) {
          StartedWhileActive(s, op, a);
        }
      }
    }
  }

  /** Replays that agree on a record go on agreeing on it. */
  lemma {:induction false} SameRecord(live: map<Str, Target>, other: map<Str, Target>, evs: seq<TargetEvent>, a: Str)
    requires a in live <==> a in other
    requires a in live ==> live[a] == other[a]
    ensures a in ReplayRecords(live, evs) <==> a in ReplayRecords(other, evs)
    ensures a in ReplayRecords(live, evs) ==> ReplayRecords(live, evs)[a] == ReplayRecords(other, evs)[a]
    decreases |evs|
  {
    if evs != [] {
      SameRecord(HandleRecord(live, evs[0]), HandleRecord(other, evs[0]), evs[1..], a);
    }
  }

  // ---------------------------------------------------------------- in the control loop

  /** The records of the stored schedulers. */
  function Running(c: Config): map<Str, Target>
  {
    map a | a in c.loop.sched && c.loop.sched[a] < |c.loop.started| :: c.loop.started[c.loop.sched[a]]
  }

  /** The records schedulers will run with when everything under way has been handled. */
  function SettledRecords(c: Config): map<Str, Target>
  {
    ReplayRecords(Running(c), Underway(c))
  }

  /** The scheduler of `a` will probe with a record that is not the registered one. */
  predicate Outdated(c: Config, a: Str)
  {
    a in SettledRecords(c) && a in c.reg.targets && SettledRecords(c)[a] != c.reg.targets[a]
  }

  /** Additions still to be emitted carry the registered records, and a record that differs is that of a dynamic
      target. */
  ghost predicate Carries(c: Config)
  {
    && (forall e :: e in c.outbox && e.isAdded ==>
          e.target.address in c.reg.targets && e.target == c.reg.targets[e.target.address])
    && (forall a :: Outdated(c, a) ==> !SettledRecords(c)[a].isStatic)
  }

  lemma SettledRecordKeys(c: Config)
    requires Good(c)
    ensures SettledRecords(c).Keys == Settled(c) && Settled(c) <= ActiveSet(c.reg)
  {
    assert Running(c).Keys == c.loop.sched.Keys;
    RecordKeys(Running(c), Underway(c));
  }

  lemma LaunchRecords(c: Config)
    requires Accounted(c) && Enabled(c, Launch) && c.hand.e.isAdded
    ensures Running(Do(c, Launch)) == HandleRecord(Running(c), c.hand.e)
  {
  }

  lemma DetachRecords(c: Config)
    requires Accounted(c) && Enabled(c, Detach)
    ensures Running(Do(c, Detach)) == HandleRecord(Running(c), c.hand.e)
  {
  }

  /** The loop's own acts do with the records what the event in its hand says. */
  lemma LoopActsOnRecords(c: Config, step: Step)
    requires Good(c) && Enabled(c, step) && (step.Launch? || step.Detach?)
    ensures SettledRecords(Do(c, step)) == SettledRecords(c)
  {
    if step.Launch? {
      LaunchRecords(c);
    } else {
      DetachRecords(c);
    }
    assert Underway(c) == [c.hand.e] + Underway(Do(c, step));
    hide Running, Good, Do, Enabled, Underway;
    assert Underway(c)[1..] == Underway(Do(c, step));
  }

  lemma OtherStepKeepsRecords(c: Config, step: Step)
    requires Good(c) && Enabled(c, step) && !step.Operate? && !step.Drop?
    ensures SettledRecords(Do(c, step)) == SettledRecords(c)
  {
    if step.Launch? || step.Detach? {
      LoopActsOnRecords(c, step);
    } else {
      assert Underway(Do(c, step)) == Underway(c);
      assert Running(Do(c, step)) == Running(c);
    }
  }

  lemma DropRecords(c: Config, a: Str)
    requires Good(c) && Proper(c) && Enabled(c, Drop)
    ensures var e, before, after := c.outbox[0], SettledRecords(c), SettledRecords(Do(c, Drop));
      || ((a in after <==> a in before) && (a in before ==> after[a] == before[a]))
      || (a == e.target.address && a !in after && a in before && before[a] == e.target)
  {
    var mid, e, rest := ReplayRecords(Running(c), Emitted(c)), c.outbox[0], c.outbox[1..];
    DropSplits(c);
    DistinctTail(c.outbox);
    RecordsAppend(Running(c), Emitted(c), c.outbox);
    RecordsAppend(Running(c), Emitted(c), rest);
    assert Emitted(c) + [e] + rest == Emitted(c) + c.outbox;
    if a == e.target.address {
      UntouchedRecord(mid, rest, a);
      UntouchedRecord(HandleRecord(mid, e), rest, a);
    } else {
      SameRecord(HandleRecord(mid, e), mid, rest, a);
    }
  }

  lemma OperateRecords(c: Config, op: Op, evs: seq<TargetEvent>)
    requires Enabled(c, Operate(op, evs))
    ensures SettledRecords(Do(c, Operate(op, evs))) == ReplayRecords(SettledRecords(c), evs)
  {
    assert Underway(Do(c, Operate(op, evs))) == Underway(c) + evs;
    RecordsAppend(Running(c), Underway(c), evs);
  }

  /** An operation makes a target static while its scheduler runs with the dynamic record. */
  predicate Overtakes(c: Config, step: Step, a: Str)
  {
    step.Operate? && Upgrades(c.reg, step.op) && step.op.target.address == a && a in Settled(c)
  }

  /** An operation stops the scheduler; the next one starts with the registered record. */
  predicate Stops(c: Config, step: Step, a: Str)
  {
    step.Operate? && a in Stopped(c.reg, step.op)
  }

  lemma OperateOutdates(c: Config, step: Step, a: Str)
    requires Good(c) && Carries(c) && step.Operate? && Enabled(c, step)
    ensures var d := Do(c, step);
      && (Outdated(d, a) <==> (Outdated(c, a) && !Stops(c, step, a)) || Overtakes(c, step, a))
      && (Outdated(d, a) ==> !SettledRecords(d)[a].isStatic)
  {
    SettledRecordKeys(c);
    OperateRecords(c, step.op, step.evs);
    RecordChange(SettledRecords(c), c.reg, step.op, step.evs, a);
    ActiveRecordChange(c.reg, step.op, a);
    if Upgrades(c.reg, step.op) {
      UpgradeDiffers(c.reg, step.op);
    }
    if a in Started(c.reg, step.op) && a in ActiveSet(c.reg) {
      StartedWhileActive(c.reg, step.op, a);
    }
    hide Announces, After, Stopped, Started, Upgrades, Settled, SettledRecords, Consistent, ActiveSet;
  }

  /** A running record becomes outdated exactly when the target is made static, and stays so until exactly the
      scheduler is stopped. */
  lemma OutdatedStep(c: Config, step: Step, a: Str)
    requires Good(c) && Proper(c) && Carries(c) && Enabled(c, step)
    ensures Outdated(Do(c, step), a) <==> (Outdated(c, a) && !Stops(c, step, a)) || Overtakes(c, step, a)
    ensures Outdated(Do(c, step), a) ==> !SettledRecords(Do(c, step))[a].isStatic
  {
    hide SettledRecords, Good;
    match step
    case Operate(_, _) => OperateOutdates(c, step, a);
    case Drop => DropRecords(c, a);
    case _ => OtherStepKeepsRecords(c, step);
  }

  lemma StepCarries(c: Config, step: Step)
    requires Good(c) && Proper(c) && Carries(c) && Enabled(c, step)
    ensures Carries(Do(c, step))
  {
    var d := Do(c, step);
    forall a | Outdated(d, a)
      ensures !SettledRecords(d)[a].isStatic
    {
      OutdatedStep(c, step, a);
    }
    hide Outdated, SettledRecords, Good, Proper;
    match step
    case Operate(op, evs) =>
      assert Consistent(c.reg) by {
        GoodConsistent(c);
      }
      FreshOutbox(c.reg, op, evs);
    case _ => OutboxShrinks(c, step);
  }

  lemma OutboxShrinks(c: Config, step: Step)
    requires Enabled(c, step) && !step.Operate?
    ensures Do(c, step).reg == c.reg && forall e :: e in Do(c, step).outbox ==> e in c.outbox
  {
  }

  lemma FreshOutbox(s: State, op: Op, evs: seq<TargetEvent>)
    requires Consistent(s) && Announces(s, op, evs)
    ensures forall e :: e in evs && e.isAdded ==>
      e.target.address in After(s, op).targets && e.target == After(s, op).targets[e.target.address]
  {
    forall e | e in evs && e.isAdded
      ensures e.target.address in After(s, op).targets && e.target == After(s, op).targets[e.target.address]
    {
      assert e.target.address in Addresses(evs, true);
      ActiveRecordChange(s, op, e.target.address);
      if Upgrades(s, op) {
        UpgradeDiffers(s, op);
      }
    }
  }

  /** The record an event carries: an addition that registered after the operation; a removal that registered before it,
      or, from a slice operation, nothing but the address. */
  lemma EventRecords(s: State, op: Op, evs: seq<TargetEvent>, e: TargetEvent)
    requires Consistent(s) && Announces(s, op, evs) && e in evs
    ensures var a := e.target.address;
      if e.isAdded then a in After(s, op).targets && e.target == After(s, op).targets[a]
      else if op.UpdateSlice? || op.RemoveSlice? then e.target == Target([], a, [], false, false)
      else a in s.targets && e.target == s.targets[a]
  {
    FreshOutbox(s, op, evs);
    assert e.target.address in Addresses(evs, e.isAdded);
  }

  // ---------------------------------------------------------------- over runs

  function Overtaking(a: Str): Kind
  {
    (c: Config, step: Step) => Overtakes(c, step, a)
  }

  function Halting(a: Str): Kind
  {
    (c: Config, step: Step) => Stops(c, step, a)
  }

  /** Somewhere on the run the target was made static under its running scheduler, which has not been stopped since. */
  ghost predicate Overtaken(claims: Claim, steps: seq<Step>, a: Str)
  {
    Unclosed(claims, steps, Overtaking(a), Halting(a))
  }

  lemma {:induction false} OutdatedIff(claims: Claim, steps: seq<Step>, a: Str)
    requires Exec(claims, steps).Some?
    ensures var c := Exec(claims, steps).value;
      Proper(c) && Carries(c) && (Outdated(c, a) <==> Overtaken(claims, steps, a))
  {
    if steps == [] {
    } else {
      hide Outdated, Proper, Carries, Good, Unclosed, Overtakes, Stops, Do, Enabled, At;
      var n := |steps| - 1;
      LastAt(claims, steps);
      OutdatedIff(claims, steps[..n], a);
      ExecGood(claims, steps[..n]);
      var c := At(claims, steps, n);
      GoodConsistent(c);
      StepProper(c, steps[n]);
      StepCarries(c, steps[n]);
      OutdatedStep(c, steps[n], a);
      UnclosedStep(claims, steps, Overtaking(a), Halting(a));
    }
  }

  /** At rest, a scheduler probes with the registered record exactly unless its target was made static while it was
      running and it has not been stopped since. */
  lemma RunningRecordIff(claims: Claim, steps: seq<Step>, c: Config, a: Str)
    requires Exec(claims, steps) == Some(c) && Resting(c) && a in c.loop.sched
    ensures a in c.reg.targets && c.loop.sched[a] < |c.loop.started|
    ensures c.loop.started[c.loop.sched[a]] == c.reg.targets[a] <==> !Overtaken(claims, steps, a)
  {
    OutdatedIff(claims, steps, a);
    ExecGood(claims, steps);
    GoodConsistent(c);
    RestingSettled(c);
    assert SettledRecords(c) == Running(c);
  }

  lemma FirstUpdate(claims: Claim, slice: EndpointSlice, scheme: Str, path: Str, a: Str)
    requires Rendering.Derived(slice, scheme, path) == [a] && claims(a, [])
    ensures var s, op := Init(claims), UpdateSlice(slice, scheme, path);
      && Announces(s, op, [TargetEvent(Dynamic(slice.Key(), a, scheme), true)])
      && After(s, op).targets == map[a := Dynamic(slice.Key(), a, scheme)]
      && ActiveSet(After(s, op)) == {a} && After(s, op).peers == []
  {
    hide Rendering.Derived;
    var s, op := Init(claims), UpdateSlice(slice, scheme, path);
    assert Fresh(s, [a]) == {a} && Vanished(s, slice.Key(), [a]) == {};
    assert ActiveSet(After(s, op)) == {a};
    SingleEvent(s, op, [TargetEvent(Dynamic(slice.Key(), a, scheme), true)]);
  }

  /** It does happen: a slice derives an address, and a static definition of that address follows.  Registered is the
      static record, but the scheduler goes on with the dynamic one, which verifies certificates and knows the slice's
      scheme. */
  lemma StaticRecordUnused(claims: Claim, slice: EndpointSlice, scheme: Str, path: Str, t: Target) returns (c: Config)
    requires Rendering.Derived(slice, scheme, path) == [t.address] && claims(t.address, [])
    ensures Reachable(claims, c) && Resting(c)
    ensures t.address in c.reg.targets && c.reg.targets[t.address] == t.(isStatic := true)
    ensures t.address in Running(c) && Running(c)[t.address] == Dynamic(slice.Key(), t.address, scheme)
  {
    c := Start(claims);
    assert Exec(claims, []) == Some(c);
    var dynamic, declared := Dynamic(slice.Key(), t.address, scheme), t.(isStatic := true);
    FirstUpdate(claims, slice, scheme, path, t.address);
    hide Rendering.Derived, Announces, Reachable, Exec;
    c := AdditionRound(claims, c, UpdateSlice(slice, scheme, path), TargetEvent(dynamic, true));
    ReachableGood(claims, c);
    AddDone(c.reg, t, [TargetEvent(declared, true)]);
    c := AdditionRound(claims, c, Op.Add(t), TargetEvent(declared, true));
  }
}

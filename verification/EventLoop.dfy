/** The event loop of main.go (lines 145-198): it starts and stops one scheduler per announced address. */
module EventLoop {
  import opened Bytes
  import opened Targets
  import opened RegistryState
  import opened EventOrder
  import MC = MetricsCleaner

  /** What the event loop owns.  A cancel function is modelled by the index of the scheduler it cancels. */
  datatype Loop = Loop(
    sched: map<Str, nat>,      // activeSchedulers: address to cancel function
    started: seq<Target>,      // the target handed to every scheduler ever started
    cancelled: set<nat>,       // the schedulers whose cancel function has been called
    pending: MC.Pending)       // the cleaner's pending deletions

  const EMPTY := Loop(map[], [], {}, map[])

  /** Start a scheduler for `t` unless one is registered under its address. */
  function StartFor(l: Loop, t: Target): Loop
  {
    if t.address in l.sched then l
    else l.(sched := l.sched[t.address := |l.started|], started := l.started + [t])
  }

  /** One event, handled from beginning to end. */
  function Handle(l: Loop, evt: TargetEvent): Loop
  {
    var a := evt.target.address;
    if evt.isAdded then
      StartFor(l.(pending := MC.Aborted(l.pending, a)), evt.target)
    else if a in l.sched then
      l.(sched := l.sched - {a}, cancelled := l.cancelled + {l.sched[a]}, pending := MC.Marked(l.pending, a))
    else l
  }

  class Controller {
    var activeSchedulers: map<Str, nat>
    var started: seq<Target>
    var cancelled: set<nat>
    const cleaner: MC.MetricsCleaner

    function State(): Loop
      reads this, cleaner
    {
      Loop(activeSchedulers, started, cancelled, cleaner.pendingDeletes)
    }

    constructor ()
      ensures State() == EMPTY && fresh(cleaner)
    {
      activeSchedulers, started, cancelled := map[], [], {};
      cleaner := new MC.MetricsCleaner();
    }

    /** The body of the loop over the registry's events. */
    method HandleEvent(evt: TargetEvent)
      modifies this, cleaner
      ensures State() == Handle(old(State()), evt)
    {
      var address := evt.target.address;
      if evt.isAdded {
        cleaner.AbortDeletion(address);
        if address !in activeSchedulers {
          activeSchedulers := activeSchedulers[address := |started|];
          started := started + [evt.target];
        }
      } else {
        var running := address in activeSchedulers;
        if running {
          var cancelFunc := activeSchedulers[address];
          activeSchedulers := activeSchedulers - {address};
          cancelled := cancelled + {cancelFunc};
          cleaner.MarkForDeletion(address);
        }
      }
    }

    /** All events of one registry operation, in whatever order it announced them: a loop in step with the registry is
        in step with it afterwards. */
    method HandleAll(ghost s: State, ghost op: Op, evts: seq<TargetEvent>)
      requires Consistent(s) && Announces(s, op, evts) && InStep(State(), s)
      modifies this, cleaner
      ensures State() == HandleSeq(old(State()), evts) && InStep(State(), After(s, op))
    {
      ghost var l := State();
      for i := 0 to |evts|
        invariant State() == HandleSeq(l, evts[..i])
      {
        HandleEvent(evts[i]);
        assert evts[..i + 1][..i] == evts[..i];
      }
      assert evts[..|evts|] == evts;
      BatchKeepsStep(l, s, op, evts);
    }
  }

  /** A list of events, handled from beginning to end. */
  function HandleSeq(l: Loop, evts: seq<TargetEvent>): Loop
  {
    if evts == [] then l else Handle(HandleSeq(l, evts[..|evts| - 1]), evts[|evts| - 1])
  }

  /** The scheduled addresses are the registry's active ones, and none of them is pending deletion. */
  ghost predicate InStep(l: Loop, s: State)
  {
    l.sched.Keys == ActiveSet(s) && l.pending.Keys !! l.sched.Keys
  }

  /** The handler adds to the scheduler map, and takes from it, just what the events say. */
  lemma {:induction false} HandleSeqReplays(l: Loop, evts: seq<TargetEvent>)
    requires l.pending.Keys !! l.sched.Keys
    ensures var m := HandleSeq(l, evts); m.sched.Keys == Replay(l.sched.Keys, evts) && m.pending.Keys !! m.sched.Keys
  {
    if evts != [] {
      var front, last := evts[..|evts| - 1], evts[|evts| - 1];
      HandleSeqReplays(l, front);
      ReplayAppend(l.sched.Keys, front, [last]);
      assert evts == front + [last] && [last][1..] == [];
    }
  }

  lemma BatchKeepsStep(l: Loop, s: State, op: Op, evts: seq<TargetEvent>)
    requires Consistent(s) && Announces(s, op, evts) && InStep(l, s)
    ensures InStep(HandleSeq(l, evts), After(s, op))
  {
    HandleSeqReplays(l, evts);
    ReplayAnnounced(s, op, evts);
  }
}

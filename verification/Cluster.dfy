/** Several replicas, each with its own history: every target is probed by exactly one. */
module Cluster {
  import opened Bytes
  import opened Targets
  import opened Rendezvous
  import opened Sharding
  import opened RegistryState
  import opened RegistryLaws
  import opened Reconciliation
  import opened Declarations
  import I = Informer
  import CL = ControlLoop
  import LR = LoopRuns

  /** Replica `i` has pod IP `selves[i]`; the IPs are non-empty and pairwise different. */
  predicate Replicas(selves: seq<Str>)
  {
    selves != [] && [] !in selves && forall i, j :: 0 <= i < j < |selves| ==> selves[i] != selves[j]
  }

  /** Every replica sees the whole cluster, in an order and with a multiplicity of its own. */
  predicate SeeEachOther(selves: seq<Str>, lists: seq<seq<Str>>)
  {
    |lists| == |selves| && forall i :: 0 <= i < |lists| ==> Members(lists[i]) == Members(selves)
  }

  /** The peer lists of a row of registry states. */
  function PeerLists(states: seq<State>): (lists: seq<seq<Str>>)
    ensures |lists| == |states| && forall i :: 0 <= i < |states| ==> lists[i] == states[i].peers
  {
    seq(|states|, i requires 0 <= i < |states| => states[i].peers)
  }

  /** The registry of the replica with pod IP `self` after some history of operations. */
  ghost predicate Evolved(self: Str, s: State)
  {
    exists ops :: s == Run(Init(Rule(self)), ops)
  }

  /** A row of replicas, each with a history of its own, that see the same pods. */
  ghost predicate Cluster(selves: seq<Str>, states: seq<State>)
  {
    && Replicas(selves)
    && |states| == |selves|
    && (forall i :: 0 <= i < |states| ==> Evolved(selves[i], states[i]))
    && SeeEachOther(selves, PeerLists(states))
  }

  predicate SameTargets(states: seq<State>)
  {
    forall i, j :: 0 <= i < |states| && 0 <= j < |states| ==> states[i].targets.Keys == states[j].targets.Keys
  }

  /** The replicas know the same slices and the same static addresses. */
  predicate SameKnowledge(states: seq<State>)
  {
    forall i, j :: 0 <= i < |states| && 0 <= j < |states| ==>
      states[i].slices == states[j].slices && Statics(states[i]) == Statics(states[j])
  }

  /** The ownership decisions of the replicas single out one of them, `w`. */
  lemma OwnerIsUnique(a: Str, selves: seq<Str>, lists: seq<seq<Str>>) returns (w: nat)
    requires Replicas(selves) && SeeEachOther(selves, lists) && UniqueTop(Bid(a), selves)
    ensures w < |selves| && forall i :: 0 <= i < |selves| ==> (Owns(a, selves[i], lists[i]) <==> i == w)
  {
    w :| 0 <= w < |selves| && selves[w] == Winner(Bid(a), selves);
    forall i | 0 <= i < |selves|
      ensures Owns(a, selves[i], lists[i]) <==> i == w
    {
      OwnsIffWinner(a, selves, selves[i], lists[i]);
    }
  }

  lemma OwnsIffWinner(a: Str, selves: seq<Str>, self: Str, peers: seq<Str>)
    requires self in selves && self != [] && Members(peers) == Members(selves) && UniqueTop(Bid(a), selves)
    ensures Owns(a, self, peers) <==> self == Winner(Bid(a), selves)
  {
    assert self in Members(peers);
    Agreement(Bid(a), selves, peers);
  }

  /** Replicas with arbitrary histories that hold the same target keys and see the same pods: a target whose best bid
      is unique is active on exactly one of them, `w`. */
  lemma ExactlyOneActive(a: Str, selves: seq<Str>, states: seq<State>) returns (w: nat)
    requires Cluster(selves, states) && SameTargets(states)
    requires a in states[0].targets && UniqueTop(Bid(a), selves)
    ensures w < |states| && forall i :: 0 <= i < |states| ==> (a in ActiveSet(states[i]) <==> i == w)
  {
    hide Owns;
    w := OwnerIsUnique(a, selves, PeerLists(states));
    forall i | 0 <= i < |states|
      ensures a in ActiveSet(states[i]) <==> i == w
    {
      assert a in states[i].targets;
      ActiveIffOwns(a, selves[i], states[i]);
    }
  }

  lemma ActiveIffOwns(a: Str, self: Str, s: State)
    requires Evolved(self, s) && a in s.targets
    ensures a in ActiveSet(s) <==> Owns(a, self, s.peers)
  {
    hide Owns;
    EvolvedConsistent(self, s);
  }

  lemma EvolvedConsistent(self: Str, s: State)
    requires Evolved(self, s)
    ensures Consistent(s) && s.claims == Rule(self)
  {
    var ops :| s == Run(Init(Rule(self)), ops);
    InitConsistent(Rule(self));
    RunConsistent(Init(Rule(self)), ops);
  }

  /** The uniqueness of the best bid is needed: when two pods tie, there are peer orders under which two replicas
      own the target at once. */
  lemma TieMeansTwoOwners(a: Str, selves: seq<Str>) returns (i: nat, j: nat, l: seq<Str>, m: seq<Str>)
    requires Replicas(selves) && !UniqueTop(Bid(a), selves)
    ensures i < |selves| && j < |selves| && i != j
    ensures Members(l) == Members(selves) && Members(m) == Members(selves)
    ensures Owns(a, selves[i], l) && Owns(a, selves[j], m)
  {
    var q := TieFollowsOrder(Bid(a), selves);
    l, m := selves, [q] + selves;
    i :| 0 <= i < |selves| && selves[i] == Winner(Bid(a), selves);
    j :| 0 <= j < |selves| && selves[j] == q;
  }

  ghost predicate OwnedOnlyBy(a: Str, selves: seq<Str>, lists: seq<seq<Str>>, w: nat)
    requires |lists| == |selves|
  {
    forall i :: 0 <= i < |selves| ==> (Owns(a, selves[i], lists[i]) <==> i == w)
  }

  ghost predicate SoleOwner(a: Str, selves: seq<Str>, lists: seq<seq<Str>>)
    requires |lists| == |selves|
  {
    exists w: nat :: w < |selves| && OwnedOnlyBy(a, selves, lists, w)
  }

  /** Whatever order each replica sees the pods in, the target has one owner, exactly when its best bid is unique. */
  lemma SoleOwnerIff(a: Str, selves: seq<Str>)
    requires Replicas(selves)
    ensures UniqueTop(Bid(a), selves) <==> forall lists :: SeeEachOther(selves, lists) ==> SoleOwner(a, selves, lists)
  {
    hide Owns;
    if UniqueTop(Bid(a), selves) {
      forall lists | SeeEachOther(selves, lists)
        ensures SoleOwner(a, selves, lists)
      {
        var w := OwnerIsUnique(a, selves, lists);
        assert OwnedOnlyBy(a, selves, lists, w);
      }
    } else {
      var i, j, l, m := TieMeansTwoOwners(a, selves);
      var lists := seq(|selves|, k requires 0 <= k < |selves| => if k == i then l else m);
      assert SeeEachOther(selves, lists);
      assert Owns(a, selves[i], lists[i]) && Owns(a, selves[j], lists[j]);
    }
  }

  function Registries(configs: seq<CL.Config>): (states: seq<State>)
    ensures |states| == |configs| && forall i :: 0 <= i < |states| ==> states[i] == configs[i].reg
  {
    seq(|configs|, i requires 0 <= i < |configs| => configs[i].reg)
  }

  /** A replica whose control loop went through `run` and is at rest in `c`. */
  ghost predicate RanToRest(self: Str, run: seq<CL.Step>, c: CL.Config)
  {
    CL.Exec(Rule(self), run) == Some(c) && CL.Resting(c)
  }

  /** Running replicas at rest that know the same targets and see each other. */
  ghost predicate Rested(selves: seq<Str>, runs: seq<seq<CL.Step>>, configs: seq<CL.Config>)
  {
    && Replicas(selves) && |runs| == |selves| && |configs| == |selves|
    && (forall i :: 0 <= i < |configs| ==> RanToRest(selves[i], runs[i], configs[i]))
    && SameTargets(Registries(configs)) && SeeEachOther(selves, PeerLists(Registries(configs)))
  }

  /** The same for running replicas at rest, whatever additions were dropped on the way: no replica but `w` runs a
      scheduler for the target, and `w` runs one exactly unless on its run the addition was dropped for good: no
      operation after the drop has stopped the target or made it static. */
  lemma ExactlyOneProber(a: Str, selves: seq<Str>, runs: seq<seq<CL.Step>>, configs: seq<CL.Config>) returns (w: nat)
    requires Rested(selves, runs, configs)
    requires a in configs[0].reg.targets && UniqueTop(Bid(a), selves)
    ensures w < |configs|
    ensures forall i :: 0 <= i < |configs| ==>
      (a in configs[i].loop.sched <==> i == w && !LR.LeftOpen(Rule(selves[i]), runs[i], a))
  {
    hide Owns, LR.LeftOpen, RanToRest;
    w := OwnerIsUnique(a, selves, PeerLists(Registries(configs)));
    forall i | 0 <= i < |configs|
      ensures a in configs[i].loop.sched <==> i == w && !LR.LeftOpen(Rule(selves[i]), runs[i], a)
    {
      assert a in Registries(configs)[i].targets;
      ScheduledIffOwns(a, selves[i], runs[i], configs[i]);
    }
  }

  lemma ScheduledIffOwns(a: Str, self: Str, run: seq<CL.Step>, c: CL.Config)
    requires RanToRest(self, run, c) && a in c.reg.targets
    ensures a in c.loop.sched <==> Owns(a, self, c.reg.peers) && !LR.LeftOpen(Rule(self), run, a)
  {
    hide Owns;
    CL.ExecGood(Rule(self), run);
    LR.GoodConsistent(c);
    LR.MissingIff(Rule(self), run, a);
    CL.RestingSettled(c);
  }

  /** When nothing was dropped, `w` runs the one scheduler. */
  lemma ExactlyOneProberWithoutDrops(a: Str, selves: seq<Str>, runs: seq<seq<CL.Step>>, configs: seq<CL.Config>)
      returns (w: nat)
    requires Rested(selves, runs, configs) && forall i :: 0 <= i < |configs| ==> configs[i].lost == {}
    requires a in configs[0].reg.targets && UniqueTop(Bid(a), selves)
    ensures w < |configs| && forall i :: 0 <= i < |configs| ==> (a in configs[i].loop.sched <==> i == w)
  {
    hide Owns, RanToRest;
    w := OwnerIsUnique(a, selves, PeerLists(Registries(configs)));
    forall i | 0 <= i < |configs|
      ensures a in configs[i].loop.sched <==> i == w
    {
      assert a in Registries(configs)[i].targets;
      ScheduledWithoutDrops(a, selves[i], runs[i], configs[i]);
    }
  }

  lemma ScheduledWithoutDrops(a: Str, self: Str, run: seq<CL.Step>, c: CL.Config)
    requires RanToRest(self, run, c) && a in c.reg.targets && c.lost == {}
    ensures a in c.loop.sched <==> Owns(a, self, c.reg.peers)
  {
    hide Owns;
    CL.ExecGood(Rule(self), run);
    assert CL.Reachable(Rule(self), c);
    CL.SchedulersMatchOwnership(Rule(self), c);
  }

  /** Peer updates during a resync name the pods of the cluster. */
  predicate PeersAmid(selves: seq<Str>, resync: seq<Op>)
  {
    forall op :: op in resync && op.UpdatePeers? ==> Members(op.peers) == Members(selves)
  }

  /** The registries of the replicas after their resyncs. */
  function Resynced(before: seq<State>, resyncs: seq<seq<Op>>): (after: seq<State>)
    requires |resyncs| == |before|
    ensures |after| == |before| && forall i :: 0 <= i < |before| ==> after[i] == Run(before[i], resyncs[i])
  {
    seq(|before|, i requires 0 <= i < |before| => Run(before[i], resyncs[i]))
  }

  /** Replicas that diverged in any way, but know the same slices and static targets, are brought back together by a
      resync of their own, in whatever order and amid peer updates in whatever order: afterwards every listed or static
      target with a unique best bid is active on exactly one replica, `w`. */
  lemma ResyncRestoresExactlyOne(a: Str, selves: seq<Str>, before: seq<State>, resyncs: seq<seq<Op>>) returns (w: nat)
    requires Cluster(selves, before) && SameKnowledge(before) && |resyncs| == |before|
    requires forall i :: 0 <= i < |before| ==> Resync(before[i], resyncs[i]) && PeersAmid(selves, resyncs[i])
    requires a in Statics(before[0]) + AllListed(before[0]) && UniqueTop(Bid(a), selves)
    ensures w < |before| && forall i :: 0 <= i < |before| ==> (a in ActiveSet(Run(before[i], resyncs[i])) <==> i == w)
  {
    hide Owns, Resync;
    var after := Resynced(before, resyncs);
    forall i | 0 <= i < |before|
      ensures Members(after[i].peers) == Members(selves)
      ensures a in ActiveSet(after[i]) <==> Owns(a, selves[i], after[i].peers)
    {
      assert Members(PeerLists(before)[i]) == Members(selves);
      PeersInstalled(before[i], resyncs[i], Members(selves));
      assert before[i].slices == before[0].slices && Statics(before[i]) == Statics(before[0]);
      assert AllListed(before[i]) == AllListed(before[0]);
      ActiveAfterResync(a, selves[i], before[i], resyncs[i]);
    }
    w := OwnerIsUnique(a, selves, PeerLists(after));
  }

  lemma ActiveAfterResync(a: Str, self: Str, s: State, resync: seq<Op>)
    requires Evolved(self, s) && Resync(s, resync) && a in Statics(s) + AllListed(s)
    ensures a in ActiveSet(Run(s, resync)) <==> Owns(a, self, Run(s, resync).peers)
  {
    hide Owns;
    EvolvedConsistent(self, s);
    RunConsistent(s, resync);
    ResyncConverges(s, resync);
  }

  // ---------------------------------------------------------------- replicas fed by their informers

  /** What the informers of all replicas show: the stored slices, the annotations, and the static addresses. */
  datatype Scene = Scene(store: map<Str, EndpointSlice>, services: I.Services, statics: set<Str>)

  /** Replica `i` went through the inputs `feeds[i]`; all replicas see the same scene, whose ready prober pods they
      are. */
  ghost predicate Fed(selves: seq<Str>, feeds: seq<seq<I.Input>>, scene: Scene)
  {
    && Replicas(selves) && |feeds| == |selves| && I.PeerIPs(scene.store.Values) == Members(selves)
    && forall i :: 0 <= i < |feeds| ==> FedAlike(selves[i], feeds[i], scene)
  }

  ghost predicate FedAlike(self: Str, feed: seq<I.Input>, scene: Scene)
  {
    var w := I.Follow(Rule(self), feed);
    I.Faithful(Rule(self), feed) && scene == Scene(w.store, w.services, Statics(w.reg))
  }

  /** The definitions of static targets in a feed. */
  function FedDefinitions(feed: seq<I.Input>): seq<Op>
  {
    if feed == [] then []
    else
      var front, last := FedDefinitions(feed[..|feed| - 1]), feed[|feed| - 1];
      if last.Direct? && (last.op.Add? || last.op.Remove?) then front + [last.op] else front
  }

  lemma {:induction false} FedStatics(self: Str, feed: seq<I.Input>)
    ensures StaticRecords(Watch(self, feed).reg) == Declared(FedDefinitions(feed))
    ensures Statics(Watch(self, feed).reg) == Declared(FedDefinitions(feed)).Keys
  {
    hide Owns, Declare;
    var s := Watch(self, feed).reg;
    assert Statics(s) == StaticRecords(s).Keys;
    if feed == [] {
    } else {
      var front, last := feed[..|feed| - 1], feed[|feed| - 1];
      FedStatics(self, front);
      FedStep(Watch(self, front), last, FedDefinitions(front));
    }
  }

  lemma FedStep(w: I.Watch, input: I.Input, definitions: seq<Op>)
    requires StaticRecords(w.reg) == Declared(definitions)
    ensures StaticRecords(I.Take(w, input).reg) ==
      Declared(if input.Direct? && (input.op.Add? || input.op.Remove?) then definitions + [input.op] else definitions)
  {
    var op := I.Issued(w, input);
    hide I.Take, After, StaticRecords;
    if op.Some? {
      StaticsStep(w.reg, op.value);
      assert (definitions + [op.value])[..|definitions|] == definitions;
    }
  }

  /** Feeds that bring the same definitions in the same order show the same static targets: with equal caches this makes
      replicas fed alike. */
  lemma SameDefinitionsFedAlike(self: Str, feed: seq<I.Input>, scene: Scene, definitions: seq<Op>)
    requires I.Faithful(Rule(self), feed) && FedDefinitions(feed) == definitions
    requires scene.store == Watch(self, feed).store && scene.services == Watch(self, feed).services
    requires scene.statics == Declared(definitions).Keys
    ensures FedAlike(self, feed, scene)
  {
    FedStatics(self, feed);
  }

  function Watch(self: Str, feed: seq<I.Input>): I.Watch
  {
    I.Follow(Rule(self), feed)
  }

  /** The replica is up to date: its lists are current and it knows its peers. */
  ghost predicate Current(self: Str, feed: seq<I.Input>)
  {
    I.UpToDate(Watch(self, feed)) && I.KnowsPeers(Watch(self, feed))
  }

  /** Replicas fed alike that are up to date know the same slices, statics and pods. */
  lemma FedAlikeKnowTheSame(selves: seq<Str>, feeds: seq<seq<I.Input>>, scene: Scene, states: seq<State>)
    requires Fed(selves, feeds, scene) && |states| == |feeds|
    requires forall i :: 0 <= i < |feeds| ==>
      states[i] == Watch(selves[i], feeds[i]).reg && Current(selves[i], feeds[i])
    ensures Cluster(selves, states) && SameKnowledge(states)
  {
    forall i | 0 <= i < |states|
      ensures Evolved(selves[i], states[i]) && Members(states[i].peers) == Members(selves)
      ensures states[i].slices == I.CurrentLists(scene.store, scene.services) && Statics(states[i]) == scene.statics
    {
      assert FedAlike(selves[i], feeds[i], scene);
      var ops := I.FollowHistory(Rule(selves[i]), feeds[i]);
    }
  }

  /** Two resyncs of a replica, the peers being collected at least once if they are not known already. */
  ghost predicate TwoResyncs(self: Str, feed: seq<I.Input>, scene: Scene, resync: (seq<Op>, seq<Op>))
  {
    && I.ResyncOf(scene.store, scene.services, resync.0) && I.ResyncOf(scene.store, scene.services, resync.1)
    && (I.KnowsPeers(Watch(self, feed)) || UpdatesPeers(resync.0) || UpdatesPeers(resync.1))
  }

  /** Where they lead. */
  function Settle(self: Str, feed: seq<I.Input>, resync: (seq<Op>, seq<Op>)): State
  {
    Run(Run(Watch(self, feed).reg, resync.0), resync.1)
  }

  /** From notifications to exactly one prober: replicas whose informers show the same cluster, whatever each went
      through before, changed annotations and overlapping slices included, need two resyncs of their own, in whatever
      order and amid the peer updates these cause; then every static target and every address the stored slices
      derive, its best bid being unique, is active on exactly one replica, `w`. */
  lemma ExactlyOneFromInformers(a: Str, selves: seq<Str>, feeds: seq<seq<I.Input>>, scene: Scene,
                                resyncs: seq<(seq<Op>, seq<Op>)>) returns (w: nat)
    requires Fed(selves, feeds, scene) && |resyncs| == |selves|
    requires forall i :: 0 <= i < |resyncs| ==> TwoResyncs(selves[i], feeds[i], scene, resyncs[i])
    requires a in scene.statics + I.DerivedFrom(scene.store, scene.services) && UniqueTop(Bid(a), selves)
    ensures w < |selves|
    ensures forall i :: 0 <= i < |selves| ==> (a in ActiveSet(Settle(selves[i], feeds[i], resyncs[i])) <==> i == w)
  {
    hide Owns, Settle, TwoResyncs, FedAlike, I.DerivedFrom, I.PeerIPs;
    var states := seq(|selves|, i requires 0 <= i < |selves| => Settle(selves[i], feeds[i], resyncs[i]));
    forall i | 0 <= i < |selves|
      ensures Members(states[i].peers) == Members(selves)
      ensures a in ActiveSet(states[i]) <==> Owns(a, selves[i], states[i].peers)
    {
      assert FedAlike(selves[i], feeds[i], scene);
      PeersOfFed(selves[i], feeds[i], scene, resyncs[i]);
      ActiveWhenFed(a, selves[i], feeds[i], scene, resyncs[i]);
    }
    w := OwnerIsUnique(a, selves, PeerLists(states));
  }

  lemma PeersOfFed(self: Str, feed: seq<I.Input>, scene: Scene, resync: (seq<Op>, seq<Op>))
    requires FedAlike(self, feed, scene) && TwoResyncs(self, feed, scene, resync)
    ensures Members(Settle(self, feed, resync).peers) == I.PeerIPs(scene.store.Values)
  {
    hide I.PeerIPs, Owns, I.ResyncOf, Run, UpdatesPeers, I.Follow, I.Faithful;
    var w := Watch(self, feed);
    var v := w.(reg := Run(w.reg, resync.0));
    if I.KnowsPeers(w) || UpdatesPeers(resync.0) {
      I.ResyncPeers(w, resync.0);
    }
    I.ResyncPeers(v, resync.1);
  }

  lemma ActiveWhenFed(a: Str, self: Str, feed: seq<I.Input>, scene: Scene, resync: (seq<Op>, seq<Op>))
    requires FedAlike(self, feed, scene) && TwoResyncs(self, feed, scene, resync)
    requires a in scene.statics + I.DerivedFrom(scene.store, scene.services)
    ensures var s := Settle(self, feed, resync); a in ActiveSet(s) <==> Owns(a, self, s.peers)
  {
    var s := Watch(self, feed).reg;
    I.HistoryMirrors(Rule(self), feed);
    I.ResyncFromStore(Rule(self), feed, resync.0, resync.1);
    RunConsistent(s, resync.0);
    RunConsistent(Run(s, resync.0), resync.1);
    hide Owns, Run, I.DerivedFrom, I.ResyncOf, I.KnowsPeers, I.Faithful, I.Follow, I.Mirrors, I.UpToDate, Agrees,
      Statics;
  }
}

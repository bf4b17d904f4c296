/** The registry as the mutable object of pkg/prober/registry.go.  Each method is the critical section of the
    operation of the same name; the events it returns are emitted after the mutex is released, which is the
    business of module ControlLoop. */
module Registry {
  import opened Bytes
  import opened Targets
  import Rendering
  import Sharding
  import opened RegistryState
  import opened RegistryLaws

  /** The events gathered so far: one per address, removals for `gone`, additions for `come`. */
  ghost predicate Gathered(evs: seq<TargetEvent>, gone: set<Str>, come: set<Str>)
  {
    Distinct(evs) && Addresses(evs, false) == gone && Addresses(evs, true) == come
  }

  lemma GatherOne(evs: seq<TargetEvent>, gone: set<Str>, come: set<Str>, e: TargetEvent)
    requires Gathered(evs, gone, come) && e.target.address !in gone + come
    ensures Gathered(evs + [e],
      if e.isAdded then gone else gone + {e.target.address}, if e.isAdded then come + {e.target.address} else come)
  {
    var more := evs + [e];
    forall i, j | 0 <= i < j < |more|
      ensures more[i].target.address != more[j].target.address
    {
      if j == |evs| {
        assert evs[i].target.address in Addresses(evs, evs[i].isAdded);
      }
    }
    assert Addresses(more, e.isAdded) == Addresses(evs, e.isAdded) + {e.target.address};
    assert Addresses(more, !e.isAdded) == Addresses(evs, !e.isAdded);
  }

  // ---------------------------------------------------------------- the walk of UpdatePeers

  /** The map `active` while the targets in `rest` are still to be visited. */
  ghost function HalfRebalanced(s: State, peers: seq<Str>, rest: set<Str>): map<Str, bool>
  {
    map a | a in s.active.Keys + s.targets.Keys && (a in s.active || (a !in rest && s.claims(a, peers))) ::
      if a in s.targets && a !in rest then s.claims(a, peers) else s.active[a]
  }

  ghost predicate PeersVisited(s: State, peers: seq<Str>, rest: set<Str>, active: map<Str, bool>, evs: seq<TargetEvent>)
  {
    var op := Op.UpdatePeers(peers);
    && active == HalfRebalanced(s, peers, rest)
    && Gathered(evs, Stopped(s, op) - rest, Started(s, op) - rest)
    && forall e :: e in evs ==> e.target.address in s.targets && e.target == s.targets[e.target.address]
  }

  /** Visiting one target: flip its entry and announce it where the decision changes. */
  function VisitPeer(s: State, peers: seq<Str>, a: Str, active: map<Str, bool>, evs: seq<TargetEvent>)
      : (map<Str, bool>, seq<TargetEvent>)
    requires a in s.targets
  {
    var should, was := s.claims(a, peers), a in active && active[a];
    if should && !was then (active[a := true], evs + [TargetEvent(s.targets[a], true)])
    else if !should && was then (active[a := false], evs + [TargetEvent(s.targets[a], false)])
    else (active, evs)
  }

  lemma VisitPeerMap(s: State, peers: seq<Str>, rest: set<Str>, a: Str, active: map<Str, bool>, evs: seq<TargetEvent>)
    requires Consistent(s) && a in rest && a in s.targets && active == HalfRebalanced(s, peers, rest)
    ensures VisitPeer(s, peers, a, active, evs).0 == HalfRebalanced(s, peers, rest - {a})
    ensures (a in active && active[a]) <==> a in ActiveSet(s)
  {
  }

  lemma VisitPeerStep(s: State, peers: seq<Str>, rest: set<Str>, a: Str, active: map<Str, bool>, evs: seq<TargetEvent>)
    requires Consistent(s) && a in rest && rest <= s.targets.Keys && PeersVisited(s, peers, rest, active, evs)
    ensures var (active', evs') := VisitPeer(s, peers, a, active, evs);
      PeersVisited(s, peers, rest - {a}, active', evs')
  {
    var op := Op.UpdatePeers(peers);
    VisitPeerMap(s, peers, rest, a, active, evs);
    assert a in ActiveSet(After(s, op)) <==> s.claims(a, peers);
    var gone, come := Stopped(s, op), Started(s, op);
    var evs' := VisitPeer(s, peers, a, active, evs).1;
    assert gone - (rest - {a}) == gone - rest + (if a in gone then {a} else {});
    assert come - (rest - {a}) == come - rest + (if a in come then {a} else {});
    if evs' != evs {
      GatherOne(evs, gone - rest, come - rest, evs'[|evs|]);
    }
  }

  lemma NoneVisited(s: State, peers: seq<Str>)
    requires Consistent(s)
    ensures PeersVisited(s, peers, s.targets.Keys, s.active, [])
  {
    assert s.active == HalfRebalanced(s, peers, s.targets.Keys);
  }

  lemma AllVisited(s: State, peers: seq<Str>, active: map<Str, bool>, evs: seq<TargetEvent>)
    requires Consistent(s) && PeersVisited(s, peers, {}, active, evs)
    ensures active == Rebalanced(s, peers) && Announces(s, Op.UpdatePeers(peers), evs)
  {
    var op := Op.UpdatePeers(peers);
    assert Stopped(s, op) - {} == Stopped(s, op) && Started(s, op) - {} == Started(s, op);
    assert active == Rebalanced(s, peers);
  }

  // ---------------------------------------------------------------- the loops of the slice operations

  /** The addresses in `gone` have been dropped, and those that were active announced as removed. */
  ghost predicate Purged(s: State, gone: set<Str>, targets: map<Str, Target>, active: map<Str, bool>,
      evs: seq<TargetEvent>)
  {
    && targets == s.targets - gone
    && active == s.active - gone
    && Gathered(evs, ActiveSet(s) * gone, {})
    && forall e :: e in evs ==> e.target == Stub(e.target.address)
  }

  lemma PurgedNone(s: State)
    ensures Purged(s, {}, s.targets, s.active, [])
  {
  }

  lemma PurgeOne(s: State, gone: set<Str>, a: Str, targets: map<Str, Target>, active: map<Str, bool>,
      evs: seq<TargetEvent>)
    requires Purged(s, gone, targets, active, evs)
    ensures Purged(s, gone + {a}, targets - {a}, active - {a},
      if a in active && active[a] then evs + [TargetEvent(Stub(a), false)] else evs)
  {
    if a in active && active[a] {
      assert a in ActiveSet(s) && a !in gone;
      GatherOne(evs, ActiveSet(s) * gone, {}, TargetEvent(Stub(a), false));
      assert ActiveSet(s) * (gone + {a}) == ActiveSet(s) * gone + {a};
    } else {
      assert a in ActiveSet(s) ==> a in gone;
      assert ActiveSet(s) * (gone + {a}) == ActiveSet(s) * gone;
    }
  }

  /** After the clean-up, the newcomers addresses have been registered, and those owned announced as added. */
  ghost predicate Enlisted(s: State, k: Str, scheme: Str, gone: set<Str>, newcomers: set<Str>,
                           targets: map<Str, Target>, active: map<Str, bool>, evs: seq<TargetEvent>)
  {
    && targets == (s.targets - gone) + (map a | a in newcomers :: Dynamic(k, a, scheme))
    && active == (s.active - gone) + (map a | a in newcomers && Mine(s, a) :: true)
    && Gathered(evs, ActiveSet(s) * gone, set a | a in newcomers && Mine(s, a))
    && forall e :: e in evs ==>
         e.target == (if e.isAdded then Dynamic(k, e.target.address, scheme) else Stub(e.target.address))
  }

  lemma EnlistNone(s: State, k: Str, scheme: Str, gone: set<Str>,
                   targets: map<Str, Target>, active: map<Str, bool>, evs: seq<TargetEvent>)
    requires Purged(s, gone, targets, active, evs)
    ensures Enlisted(s, k, scheme, gone, {}, targets, active, evs)
  {
    assert (set a | a in {} && Mine(s, a)) == {};
    forall e | e in evs
      ensures !e.isAdded
    {
      assert e.target.address in Addresses(evs, e.isAdded);
    }
  }

  lemma EnlistTarget(s: State, k: Str, scheme: Str, rest: map<Str, Target>, newcomers: set<Str>, a: Str)
    ensures (rest + (map x | x in newcomers :: Dynamic(k, x, scheme)))[a := Dynamic(k, a, scheme)] ==
      rest + (map x | x in newcomers + {a} :: Dynamic(k, x, scheme))
  {
  }

  lemma EnlistActive(s: State, rest: map<Str, bool>, newcomers: set<Str>, a: Str)
    ensures var was := rest + (map x | x in newcomers && Mine(s, x) :: true);
      (if Mine(s, a) then was[a := true] else was) == rest + (map x | x in newcomers + {a} && Mine(s, x) :: true)
  {
  }

  lemma EnlistEvents(s: State, gone: set<Str>, newcomers: set<Str>, e: TargetEvent, evs: seq<TargetEvent>)
    requires Gathered(evs, gone, set x | x in newcomers && Mine(s, x))
    requires e.isAdded && e.target.address !in gone && e.target.address !in newcomers
    ensures Gathered(if Mine(s, e.target.address) then evs + [e] else evs, gone,
      set x | x in newcomers + {e.target.address} && Mine(s, x))
  {
    hide Gathered;
    var a, come := e.target.address, set x | x in newcomers && Mine(s, x);
    var more := set x | x in newcomers + {a} && Mine(s, x);
    if Mine(s, a) {
      GatherOne(evs, gone, come, e);
      assert more == come + {a};
    } else {
      assert more == come;
    }
  }

  lemma EnlistOne(s: State, k: Str, scheme: Str, gone: set<Str>, newcomers: set<Str>, a: Str,
                  targets: map<Str, Target>, active: map<Str, bool>, evs: seq<TargetEvent>)
    requires Enlisted(s, k, scheme, gone, newcomers, targets, active, evs)
    requires a !in ActiveSet(s) && a !in newcomers
    ensures Enlisted(s, k, scheme, gone, newcomers + {a}, targets[a := Dynamic(k, a, scheme)],
      if Mine(s, a) then active[a := true] else active,
      if Mine(s, a) then evs + [TargetEvent(Dynamic(k, a, scheme), true)] else evs)
  {
    hide Gathered, ActiveSet, Mine;
    EnlistTarget(s, k, scheme, s.targets - gone, newcomers, a);
    EnlistActive(s, s.active - gone, newcomers, a);
    EnlistEvents(s, ActiveSet(s) * gone, newcomers, TargetEvent(Dynamic(k, a, scheme), true), evs);
  }

  lemma EnlistedKeys(s: State, k: Str, scheme: Str, gone: set<Str>, newcomers: set<Str>, a: Str,
                     targets: map<Str, Target>, active: map<Str, bool>, evs: seq<TargetEvent>)
    requires Enlisted(s, k, scheme, gone, newcomers, targets, active, evs) && a !in gone
    ensures a in targets <==> a in s.targets || a in newcomers
  {
  }

  lemma FreshMore(s: State, list: seq<Str>, i: nat)
    requires i < |list|
    ensures Fresh(s, list[..i + 1]) == Fresh(s, list[..i]) + (if list[i] in s.targets then {} else {list[i]})
  {
    assert list[..i + 1] == list[..i] + [list[i]];
  }

  lemma UpdateSliceChanges(s: State, k: Str, scheme: Str, list: seq<Str>)
    requires Consistent(s)
    ensures var t := AfterUpdateSlice(s, k, scheme, list);
      && ActiveSet(s) - ActiveSet(t) == ActiveSet(s) * Vanished(s, k, list)
      && ActiveSet(t) - ActiveSet(s) == set a | a in Fresh(s, list) && Mine(s, a)
  {
  }

  /** What the two loops leave behind is the specified state, announced as specified. */
  lemma UpdateSliceDone(s: State, op: Op, targets: map<Str, Target>, active: map<Str, bool>, evs: seq<TargetEvent>)
    requires Consistent(s) && op.UpdateSlice?
    requires var k, list := op.slice.Key(), Rendering.Derived(op.slice, op.scheme, op.path);
      Enlisted(s, k, op.scheme, Vanished(s, k, list), Fresh(s, list), targets, active, evs)
    ensures targets == After(s, op).targets && active == After(s, op).active && Announces(s, op, evs)
  {
    var k, list := op.slice.Key(), Rendering.Derived(op.slice, op.scheme, op.path);
    UpdateSliceChanges(s, k, op.scheme, list);
    forall e | e in evs
      ensures e.target == Payload(s, op, e.target.address, e.isAdded)
    {
      assert e.target.address in Addresses(evs, e.isAdded);
    }
  }

  lemma RemoveSliceDone(s: State, op: Op, targets: map<Str, Target>, active: map<Str, bool>, evs: seq<TargetEvent>)
    requires Consistent(s) && op.RemoveSlice?
    requires Purged(s, Droppable(s, Listed(s, op.slice.Key())), targets, active, evs)
    ensures targets == After(s, op).targets && active == After(s, op).active && Announces(s, op, evs)
  {
    var gone := Droppable(s, Listed(s, op.slice.Key()));
    assert Stopped(s, op) == ActiveSet(s) * gone;
    assert Started(s, op) == {};
    forall e | e in evs
      ensures e.target == Payload(s, op, e.target.address, e.isAdded)
    {
      assert e.target.address in Addresses(evs, e.isAdded);
    }
  }

  class Registry {
    var targets: map<Str, Target>
    var sliceTargets: map<Str, seq<Str>>
    var clusterPodIPs: seq<Str>
    const selfPodIP: Str
    var active: map<Str, bool>

    function State(): State
      reads this
    {
      RegistryState.State(targets, sliceTargets, clusterPodIPs, Sharding.Rule(selfPodIP), active)
    }

    ghost predicate Valid()
      reads this
    {
      Consistent(State())
    }

    constructor (selfPodIP: Str)
      ensures Valid() && State() == Init(Sharding.Rule(selfPodIP))
    {
      this.selfPodIP := selfPodIP;
      targets, sliceTargets, clusterPodIPs, active := map[], map[], [], map[];
      new;
      InitConsistent(Sharding.Rule(selfPodIP));
    }

    method ShouldProcessTarget(target: Str) returns (mine: bool)
      ensures mine == Mine(State(), target)
    {
      mine := Sharding.EvalShardingOwner(target, selfPodIP, clusterPodIPs);
    }

    /** `r.active[a]`: a missing entry reads as false. */
    predicate IsActive(a: Str)
      reads this
    {
      a in active && active[a]
    }

    /** Installs a peer list and walks over all targets, in an order the caller cannot rely on. */
    method UpdatePeers(peers: seq<Str>) returns (eventsToSend: seq<TargetEvent>)
      requires Valid()
      modifies this
      ensures Valid() && State() == After(old(State()), Op.UpdatePeers(peers))
      ensures Announces(old(State()), Op.UpdatePeers(peers), eventsToSend)
    {
      hide Sharding.Rule, PeersVisited, Announces;
      ghost var s := State();
      StepConsistent(s, Op.UpdatePeers(peers));
      NoneVisited(s, peers);
      clusterPodIPs := peers;
      eventsToSend := [];
      var rest := targets.Keys;
      while rest != {}
        invariant rest <= targets.Keys
        invariant State() == s.(peers := peers, active := active)
        invariant PeersVisited(s, peers, rest, active, eventsToSend)
      {
        var address :| address in rest;
        VisitPeerStep(s, peers, rest, address, active, eventsToSend);
        rest := rest - {address};
        var shouldProcess := ShouldProcessTarget(address);
        var isCurrentlyProcessing := IsActive(address);
        if shouldProcess && !isCurrentlyProcessing {
          active := active[address := true];
          eventsToSend := eventsToSend + [TargetEvent(targets[address], true)];
        } else if !shouldProcess && isCurrentlyProcessing {
          active := active[address := false];
          eventsToSend := eventsToSend + [TargetEvent(targets[address], false)];
        }
      }
      AllVisited(s, peers, active, eventsToSend);
    }

    /** Reconciles one slice: drops the dynamic targets it lists no more, then registers the new ones. */
    method UpdateFromEndpointSlice(slice: EndpointSlice, scheme: Str, path: Str)
        returns (eventsToSend: seq<TargetEvent>)
      requires Valid()
      modifies this
      ensures Valid() && State() == After(old(State()), Op.UpdateSlice(slice, scheme, path))
      ensures Announces(old(State()), Op.UpdateSlice(slice, scheme, path), eventsToSend)
    {
      hide Sharding.Rule;
      ghost var s := State();
      ghost var op := Op.UpdateSlice(slice, scheme, path);
      StepConsistent(s, op);
      var sliceKey := slice.Key();
      var newTargetMap, newTargetList := Rendering.Derive(slice, scheme, path);
      eventsToSend := CleanUp(sliceKey, newTargetMap, newTargetList);
      eventsToSend := Enlist(s, sliceKey, scheme, newTargetList, eventsToSend);
      UpdateSliceDone(s, op, targets, active, eventsToSend);
      sliceTargets := sliceTargets[sliceKey := newTargetList];
    }

    /** The loop over the previously listed addresses. */
    method CleanUp(sliceKey: Str, newTargetMap: set<Str>, ghost list: seq<Str>) returns (eventsToSend: seq<TargetEvent>)
      requires newTargetMap == Members(list)
      modifies this`targets, this`active
      ensures Purged(old(State()), Vanished(old(State()), sliceKey, list), targets, active, eventsToSend)
    {
      hide Gathered, Sharding.Rule;
      ghost var s := State();
      var oldTargets := if sliceKey in sliceTargets then sliceTargets[sliceKey] else [];
      eventsToSend := [];
      PurgedNone(s);
      assert Outdated(s, oldTargets[..0], list) == {};
      for i := 0 to |oldTargets|
        invariant Purged(s, Outdated(s, oldTargets[..i], list), targets, active, eventsToSend)
      {
        var oldAddress := oldTargets[i];
        ghost var gone := Outdated(s, oldTargets[..i], list);
        ghost var more := Outdated(s, oldTargets[..i + 1], list);
        assert oldTargets[..i + 1] == oldTargets[..i] + [oldAddress];
        if oldAddress !in newTargetMap && oldAddress in targets && !targets[oldAddress].isStatic {
          PurgeOne(s, gone, oldAddress, targets, active, eventsToSend);
          assert more == gone + {oldAddress};
          targets := targets - {oldAddress};
          var wasActive := IsActive(oldAddress);
          active := active - {oldAddress};
          if wasActive {
            eventsToSend := eventsToSend + [TargetEvent(Stub(oldAddress), false)];
          }
        } else {
          assert more == gone;
        }
      }
      assert oldTargets[..|oldTargets|] == oldTargets;
    }

    /** The loop over the newly derived addresses. */
    method Enlist(ghost s: State, sliceKey: Str, scheme: Str, newTargetList: seq<Str>, removals: seq<TargetEvent>)
        returns (eventsToSend: seq<TargetEvent>)
      requires Consistent(s) && State() == s.(targets := targets, active := active)
      requires Purged(s, Vanished(s, sliceKey, newTargetList), targets, active, removals)
      modifies this`targets, this`active
      ensures Enlisted(s, sliceKey, scheme, Vanished(s, sliceKey, newTargetList), Fresh(s, newTargetList),
                       targets, active, eventsToSend)
    {
      hide Enlisted, Purged, Gathered, Sharding.Rule;
      ghost var gone := Vanished(s, sliceKey, newTargetList);
      eventsToSend := removals;
      EnlistNone(s, sliceKey, scheme, gone, targets, active, removals);
      assert Fresh(s, newTargetList[..0]) == {};
      for i := 0 to |newTargetList|
        invariant State() == s.(targets := targets, active := active)
        invariant Enlisted(s, sliceKey, scheme, gone, Fresh(s, newTargetList[..i]), targets, active, eventsToSend)
      {
        var newAddress := newTargetList[i];
        ghost var newcomers := Fresh(s, newTargetList[..i]);
        FreshMore(s, newTargetList, i);
        EnlistedKeys(s, sliceKey, scheme, gone, newcomers, newAddress, targets, active, eventsToSend);
        if newAddress in targets && targets[newAddress].isStatic {
          assert Fresh(s, newTargetList[..i + 1]) == newcomers;
          continue;
        }
        if newAddress !in targets {
          EnlistOne(s, sliceKey, scheme, gone, newcomers, newAddress, targets, active, eventsToSend);
          var fullTarget := Target(sliceKey, newAddress, scheme, false, false);
          targets := targets[newAddress := fullTarget];
          var mine := ShouldProcessTarget(newAddress);
          if mine {
            active := active[newAddress := true];
            eventsToSend := eventsToSend + [TargetEvent(fullTarget, true)];
          }
        } else {
          assert Fresh(s, newTargetList[..i + 1]) == newcomers;
        }
      }
      assert newTargetList[..|newTargetList|] == newTargetList;
    }

    /** Unregisters the dynamic targets of a deleted slice. */
    method RemoveEndpointSlice(slice: EndpointSlice) returns (eventsToSend: seq<TargetEvent>)
      requires Valid()
      modifies this
      ensures Valid() && State() == After(old(State()), Op.RemoveSlice(slice))
      ensures Announces(old(State()), Op.RemoveSlice(slice), eventsToSend)
    {
      hide Sharding.Rule;
      ghost var s := State();
      ghost var op := Op.RemoveSlice(slice);
      StepConsistent(s, op);
      var sliceKey := slice.Key();
      eventsToSend := DropListed(sliceKey);
      RemoveSliceDone(s, op, targets, active, eventsToSend);
      sliceTargets := sliceTargets - {sliceKey};
    }

    /** The loop over the addresses of a slice that goes away. */
    method DropListed(sliceKey: Str) returns (eventsToSend: seq<TargetEvent>)
      modifies this`targets, this`active
      ensures Purged(old(State()), Droppable(old(State()), Listed(old(State()), sliceKey)),
                     targets, active, eventsToSend)
    {
      hide Gathered, Sharding.Rule;
      ghost var s := State();
      var oldTargets := if sliceKey in sliceTargets then sliceTargets[sliceKey] else [];
      eventsToSend := [];
      PurgedNone(s);
      assert Droppable(s, oldTargets[..0]) == {};
      for i := 0 to |oldTargets|
        invariant Purged(s, Droppable(s, oldTargets[..i]), targets, active, eventsToSend)
      {
        var oldAddress := oldTargets[i];
        ghost var gone := Droppable(s, oldTargets[..i]);
        ghost var more := Droppable(s, oldTargets[..i + 1]);
        assert oldTargets[..i + 1] == oldTargets[..i] + [oldAddress];
        if oldAddress in targets && targets[oldAddress].isStatic {
          assert more == gone;
          continue;
        }
        PurgeOne(s, gone, oldAddress, targets, active, eventsToSend);
        assert more == gone + {oldAddress};
        targets := targets - {oldAddress};
        var wasActive := IsActive(oldAddress);
        active := active - {oldAddress};
        if wasActive {
          eventsToSend := eventsToSend + [TargetEvent(Stub(oldAddress), false)];
        }
      }
      assert oldTargets[..|oldTargets|] == oldTargets;
    }

    /** Registers a static target; an address that is already static is left alone. */
    method Add(target: Target) returns (eventsToSend: seq<TargetEvent>)
      requires Valid()
      modifies this
      ensures Valid() && State() == After(old(State()), Op.Add(target))
      ensures Announces(old(State()), Op.Add(target), eventsToSend)
    {
      hide Sharding.Rule;
      ghost var s := State();
      ghost var op := Op.Add(target);
      StepConsistent(s, op);
      eventsToSend := [];
      var declared := target.(isStatic := true);
      if target.address !in targets || !targets[target.address].isStatic {
        targets := targets[target.address := declared];
        var mine := ShouldProcessTarget(target.address);
        if mine {
          active := active[target.address := true];
          eventsToSend := [TargetEvent(declared, true)];
        }
      }
      AddDone(s, target, eventsToSend);
    }

    /** Unregisters a target of either kind. */
    method Remove(address: Str) returns (eventsToSend: seq<TargetEvent>)
      requires Valid()
      modifies this
      ensures Valid() && State() == After(old(State()), Op.Remove(address))
      ensures Announces(old(State()), Op.Remove(address), eventsToSend)
    {
      hide Sharding.Rule;
      ghost var s := State();
      ghost var op := Op.Remove(address);
      StepConsistent(s, op);
      eventsToSend := [];
      if address in targets {
        var target := targets[address];
        targets := targets - {address};
        var wasActive := IsActive(address);
        active := active - {address};
        if wasActive {
          eventsToSend := [TargetEvent(target, false)];
        }
      }
      RemoveDone(s, address, eventsToSend);
    }
  }
}

/** One replica as its objects: the registry and the event loop's controller working hand in hand. */
module Replica {
  import opened Bytes
  import opened Targets
  import opened RegistryState
  import Rebalancing
  import Sharding
  import RM = Registry
  import L = EventLoop

  class Replica {
    const registry: RM.Registry
    const controller: L.Controller

    ghost predicate Valid()
      reads this, registry, controller, controller.cleaner
    {
      registry.Valid() && L.InStep(controller.State(), registry.State())
    }

    constructor (selfPodIP: Str)
      ensures Valid() && fresh(registry) && fresh(controller) && fresh(controller.cleaner)
      ensures registry.State() == Init(Sharding.Rule(selfPodIP))
    {
      registry := new RM.Registry(selfPodIP);
      controller := new L.Controller();
    }

    method Operate(op: Op) returns (evts: seq<TargetEvent>)
      requires registry.Valid()
      modifies registry
      ensures registry.Valid() && registry.State() == After(old(registry.State()), op)
      ensures Announces(old(registry.State()), op, evts)
    {
      hide After, Announces, Consistent;
      match op
      case UpdatePeers(peers) => evts := registry.UpdatePeers(peers);
      case UpdateSlice(slice, scheme, path) => evts := registry.UpdateFromEndpointSlice(slice, scheme, path);
      case RemoveSlice(slice) => evts := registry.RemoveEndpointSlice(slice);
      case Add(target) => evts := registry.Add(target);
      case Remove(address) => evts := registry.Remove(address);
    }

    /** A registry operation, and the handling of all its events before anything else happens: whatever the operation,
        schedulers run for exactly the registered targets this replica owns: all of them, as long as it knows no
        peers. */
    method Perform(op: Op)
      requires Valid()
      modifies registry, controller, controller.cleaner
      ensures Valid() && registry.State() == After(old(registry.State()), op)
      ensures forall a :: a in controller.activeSchedulers <==>
        a in registry.targets && Sharding.Owns(a, registry.selfPodIP, registry.clusterPodIPs)
      ensures registry.selfPodIP == [] || registry.clusterPodIPs == [] ==>
        controller.activeSchedulers.Keys == registry.targets.Keys
    {
      hide Sharding.Owns, After, Announces;
      ghost var s := registry.State();
      var evts := Operate(op);
      controller.HandleAll(s, op, evts);
      assert controller.State().sched.Keys == ActiveSet(registry.State());
      if registry.selfPodIP == [] || registry.clusterPodIPs == [] {
        Rebalancing.AloneOwnsAll(registry.State(), registry.selfPodIP);
      }
    }
  }
}

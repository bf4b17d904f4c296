/** The registry as a value, and what each of its operations does to it (pkg/prober/registry.go).
    `After` gives the state an operation leaves behind; `Announces` says which events it hands to the event queue. */
module RegistryState {
  import opened Bytes
  import opened Targets
  import Rendering

  /** The sharding rule with a replica's own IP filled in: does this replica own the target, given these peers?
      The laws of the registry hold for every rule; `Sharding.Rule` is the one in use. */
  type Claim = (Str, seq<Str>) -> bool

  datatype State = State(
    targets: map<Str, Target>,
    slices: map<Str, seq<Str>>,
    peers: seq<Str>,
    claims: Claim,
    active: map<Str, bool>)

  function Init(claims: Claim): State
  {
    State(map[], map[], [], claims, map[])
  }

  datatype Op =
    | UpdatePeers(peers: seq<Str>)
    | UpdateSlice(slice: EndpointSlice, scheme: Str, path: Str)
    | RemoveSlice(slice: EndpointSlice)
    | Add(target: Target)
    | Remove(address: Str)

  /** The addresses this replica currently probes. */
  function ActiveSet(s: State): set<Str>
  {
    set a | a in s.active && s.active[a]
  }

  predicate Mine(s: State, a: Str)
  {
    s.claims(a, s.peers)
  }

  predicate IsStatic(s: State, a: Str)
  {
    a in s.targets && s.targets[a].isStatic
  }

  /** The addresses a slice is known to list; none for an unknown slice. */
  function Listed(s: State, k: Str): seq<Str>
  {
    if k in s.slices then s.slices[k] else []
  }

  function Dynamic(k: Str, a: Str, scheme: Str): Target
  {
    Target(k, a, scheme, false, false)
  }

  // ---------------------------------------------------------------- the five operations

  /** Entries of `active` are written only where the decision changes. */
  function Rebalanced(s: State, peers: seq<Str>): map<Str, bool>
  {
    map a | a in s.active.Keys + s.targets.Keys && (a in s.active || s.claims(a, peers)) ::
      if a in s.targets then s.claims(a, peers) else s.active[a]
  }

  /** The dynamic targets on a former list that are missing from the new one. */
  function Outdated(s: State, former: seq<Str>, list: seq<Str>): set<Str>
  {
    set a | a in former && a !in list && a in s.targets && !s.targets[a].isStatic
  }

  /** The dynamic targets a slice listed and lists no more. */
  function Vanished(s: State, k: Str, list: seq<Str>): set<Str>
  {
    Outdated(s, Listed(s, k), list)
  }

  /** The addresses on a list that are not registered yet. */
  function Fresh(s: State, list: seq<Str>): set<Str>
  {
    set a | a in list && a !in s.targets
  }

  function AfterUpdateSlice(s: State, k: Str, scheme: Str, list: seq<Str>): State
  {
    var gone := Vanished(s, k, list);
    s.(targets := (s.targets - gone) + (map a | a in Fresh(s, list) :: Dynamic(k, a, scheme)),
       active := (s.active - gone) + (map a | a in Fresh(s, list) && Mine(s, a) :: true),
       slices := s.slices[k := list])
  }

  /** The listed addresses that are not static. */
  function Droppable(s: State, list: seq<Str>): set<Str>
  {
    set a | a in list && !IsStatic(s, a)
  }

  function AfterRemoveSlice(s: State, k: Str): State
  {
    var gone := Droppable(s, Listed(s, k));
    s.(targets := s.targets - gone, active := s.active - gone, slices := s.slices - {k})
  }

  function AfterAdd(s: State, target: Target): State
  {
    var a := target.address;
    if IsStatic(s, a) then s
    else s.(targets := s.targets[a := target.(isStatic := true)],
            active := if Mine(s, a) then s.active[a := true] else s.active)
  }

  function AfterRemove(s: State, a: Str): State
  {
    if a in s.targets then s.(targets := s.targets - {a}, active := s.active - {a}) else s
  }

  /** The state an operation leaves behind. */
  function After(s: State, op: Op): State
  {
    match op
    case UpdatePeers(peers) => s.(peers := peers, active := Rebalanced(s, peers))
    case UpdateSlice(slice, scheme, path) =>
      AfterUpdateSlice(s, slice.Key(), scheme, Rendering.Derived(slice, scheme, path))
    case RemoveSlice(slice) => AfterRemoveSlice(s, slice.Key())
    case Add(target) => AfterAdd(s, target)
    case Remove(a) => AfterRemove(s, a)
  }

  // ---------------------------------------------------------------- events

  /** The addresses whose scheduler must stop. */
  function Stopped(s: State, op: Op): set<Str>
  {
    ActiveSet(s) - ActiveSet(After(s, op))
  }

  /** An active dynamic target that becomes static: its address is announced once more. */
  predicate Upgrades(s: State, op: Op)
  {
    op.Add? && op.target.address in ActiveSet(s) && !IsStatic(s, op.target.address)
  }

  /** The addresses announced as added. */
  function Started(s: State, op: Op): set<Str>
  {
    ActiveSet(After(s, op)) - ActiveSet(s) + (if Upgrades(s, op) then {op.target.address} else {})
  }

  /** The target record carried by the event for `a`. */
  function Payload(s: State, op: Op, a: Str, isAdded: bool): Target
  {
    if isAdded then
      var t := After(s, op).targets;
      if a in t then t[a] else Stub(a)
    else if op.UpdateSlice? || op.RemoveSlice? || a !in s.targets then Stub(a)
    else s.targets[a]
  }

  function Addresses(evs: seq<TargetEvent>, isAdded: bool): set<Str>
  {
    set e | e in evs && e.isAdded == isAdded :: e.target.address
  }

  predicate Distinct(evs: seq<TargetEvent>)
  {
    forall i, j :: 0 <= i < j < |evs| ==> evs[i].target.address != evs[j].target.address
  }

  /** `evs` is a possible outcome of `op` in `s`: one event per address, in any order (UpdatePeers ranges over
      a Go map), announcing exactly the changes of the active set, plus the upgrade. */
  predicate Announces(s: State, op: Op, evs: seq<TargetEvent>)
  {
    && Distinct(evs)
    && Addresses(evs, false) == Stopped(s, op)
    && Addresses(evs, true) == Started(s, op)
    && forall e :: e in evs ==> e.target == Payload(s, op, e.target.address, e.isAdded)
  }

  // ---------------------------------------------------------------- invariants

  /** The slice whose name the target bears lists it. */
  predicate Backed(s: State, a: Str)
    requires a in s.targets
  {
    a in Listed(s, s.targets[a].name)
  }

  /** What holds whenever the registry's mutex is free: only registered targets are active, every record sits under
      its own address, the active targets are the ones this replica owns under the current peer list, and every
      dynamic target is listed by the very slice it was registered from. */
  ghost predicate Consistent(s: State)
  {
    && s.active.Keys <= s.targets.Keys
    && (forall a :: a in s.targets ==> s.targets[a].address == a)
    && (forall a :: a in s.targets ==> (a in ActiveSet(s) <==> Mine(s, a)))
    && (forall a :: a in s.targets && !s.targets[a].isStatic ==> Backed(s, a))
  }
}

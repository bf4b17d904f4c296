/** How cluster notifications become registry operations (pkg/prober/informer.go). */
module Informer {
  import opened Bytes
  import opened Targets
  import Rendering
  import opened RegistryState
  import opened RegistryLaws
  import opened Reconciliation

  // ---------------------------------------------------------------- peers

  /** The slices of the prober's own service. */
  predicate IsProberSlice(slice: EndpointSlice)
  {
    var tag := Ascii("kubernetes.io/service-name");
    tag in slice.labels && slice.labels[tag] == Ascii("kube-prober")
  }

  function ReadyAddresses(slice: EndpointSlice): set<Str>
  {
    set ep, ip | ep in slice.endpoints && ep.ready == Some(true) && ip in ep.addresses :: ip
  }

  /** The ready prober pods of a set of slices. */
  function PeerIPs(slices: set<EndpointSlice>): set<Str>
  {
    set slice, ip | slice in slices && IsProberSlice(slice) && ip in ReadyAddresses(slice) :: ip
  }

  function AllOf(store: seq<EndpointSlice>): set<EndpointSlice>
  {
    set slice | slice in store
  }

  /** Collects the peer list from the informer's store, which lists its slices in no particular order. */
  method AggregatePeers(store: seq<EndpointSlice>) returns (peerIPs: seq<Str>)
    ensures Members(peerIPs) == PeerIPs(AllOf(store))
  {
    peerIPs := [];
    for i := 0 to |store|
      invariant Members(peerIPs) == PeerIPs(AllOf(store[..i]))
    {
      var slice := store[i];
      ghost var seen := AllOf(store[..i]);
      assert store[..i + 1] == store[..i] + [slice];
      assert AllOf(store[..i + 1]) == seen + {slice};
      if IsProberSlice(slice) {
        var more := ReadyOf(slice);
        peerIPs := peerIPs + more;
        assert PeerIPs(seen + {slice}) == PeerIPs(seen) + ReadyAddresses(slice);
      } else {
        assert PeerIPs(seen + {slice}) == PeerIPs(seen);
      }
    }
    assert store[..|store|] == store;
  }

  method ReadyOf(slice: EndpointSlice) returns (ips: seq<Str>)
    ensures Members(ips) == ReadyAddresses(slice)
  {
    ips := [];
    for e := 0 to |slice.endpoints|
      invariant Members(ips) == ReadyAddresses(slice.(endpoints := slice.endpoints[..e]))
    {
      var ep := slice.endpoints[e];
      ghost var before := slice.(endpoints := slice.endpoints[..e]);
      ghost var after := slice.(endpoints := slice.endpoints[..e + 1]);
      assert after.endpoints == before.endpoints + [ep];
      if ep.ready != None && ep.ready.value {
        ips := ips + ep.addresses;
        assert ReadyAddresses(after) == ReadyAddresses(before) + Members(ep.addresses);
      } else {
        assert ReadyAddresses(after) == ReadyAddresses(before);
      }
    }
    assert slice.endpoints[..|slice.endpoints|] == slice.endpoints;
  }

  /** An empty aggregation is not forwarded: the registry keeps its last peer list. */
  function PeerOp(peerIPs: seq<Str>): Option<Op>
  {
    if |peerIPs| > 0 then Some(UpdatePeers(peerIPs)) else None
  }

  // ---------------------------------------------------------------- slices

  predicate Probed(slice: EndpointSlice)
  {
    var tag := Ascii("probe");
    tag in slice.labels && slice.labels[tag] == Ascii("true")
  }

  /** The service cache: annotations by namespace and name; a service may have none. */
  type Services = map<(Str, Str), map<Str, Str>>

  /** Scheme and path of a slice's probes, from its service's annotations; an empty scheme does not override the
      default, an empty path does. */
  function SchemeAndPath(slice: EndpointSlice, services: Services): (r: (Str, Str))
    ensures r.0 != []
  {
    var scheme, path := Ascii("http"), Ascii("/healthz");
    var tag := Ascii("kubernetes.io/service-name");
    var service := (slice.namespace, if tag in slice.labels then slice.labels[tag] else []);
    if service.1 == [] || service !in services then (scheme, path) else
      var notes := services[service];
      var schemeNote, pathNote := Ascii("probe/scheme"), Ascii("probe/path");
      (if schemeNote in notes && notes[schemeNote] != [] then notes[schemeNote] else scheme,
       if pathNote in notes then notes[pathNote] else path)
  }

  datatype Notification =
    | Added(slice: EndpointSlice)
    | Updated(slice: EndpointSlice)
    | Deleted(slice: EndpointSlice)

  function Update(slice: EndpointSlice, services: Services): Op
  {
    var (scheme, path) := SchemeAndPath(slice, services);
    UpdateSlice(slice, scheme, path)
  }

  /** The handler: the registry operation a notification causes, if any. */
  function Handle(n: Notification, services: Services): Option<Op>
  {
    match n
    case Added(slice) => if Probed(slice) then Some(Update(slice, services)) else None
    case Updated(slice) => Some(if Probed(slice) then Update(slice, services) else RemoveSlice(slice))
    case Deleted(slice) => if Probed(slice) then Some(RemoveSlice(slice)) else None
  }

  // ---------------------------------------------------------------- labels and annotations

  /** The pods a peer list names: the addresses of ready endpoints of the slices labelled as those of the service
      kube-prober. */
  lemma PeersExactly(slices: set<EndpointSlice>, ip: Str)
    ensures ip in PeerIPs(slices) <==> exists slice, ep ::
      && slice in slices && (Ascii("kubernetes.io/service-name"), Ascii("kube-prober")) in slice.labels.Items
      && ep in slice.endpoints && ep.ready == Some(true) && ip in ep.addresses
  {
    hide Ascii;
    forall slice
      ensures IsProberSlice(slice) <==>
        (Ascii("kubernetes.io/service-name"), Ascii("kube-prober")) in slice.labels.Items
    {
    }
    if ip in PeerIPs(slices) {
      var slice :| slice in slices && IsProberSlice(slice) && ip in ReadyAddresses(slice);
      var ep :| ep in slice.endpoints && ep.ready == Some(true) && ip in ep.addresses;
    }
    forall slice, ep | slice in slices && IsProberSlice(slice) && ep in slice.endpoints && ep.ready == Some(true) &&
      ip in ep.addresses
      ensures ip in PeerIPs(slices)
    {
      assert ip in ReadyAddresses(slice);
    }
  }

  /** Slices labelled probe=true are followed: their addition and update register what they list, their deletion drops
      it. Of other slices only an update counts, which drops what they listed. */
  lemma OnlyLabelledSlices(slice: EndpointSlice, services: Services)
    ensures var labelled := (Ascii("probe"), Ascii("true")) in slice.labels.Items;
      && (Handle(Added(slice), services) == if labelled then Some(Update(slice, services)) else None)
      && (Handle(Updated(slice), services) == Some(if labelled then Update(slice, services) else RemoveSlice(slice)))
      && (Handle(Deleted(slice), services) == if labelled then Some(RemoveSlice(slice)) else None)
  {
    hide Update;
  }

  /** The slice names the service `name` of its namespace, annotated with `notes`. */
  predicate Serves(slice: EndpointSlice, services: Services, name: Str, notes: map<Str, Str>)
  {
    && (Ascii("kubernetes.io/service-name"), name) in slice.labels.Items && name != []
    && ((slice.namespace, name), notes) in services.Items
  }

  /** The addresses of a slice, its service being annotated: the scheme is that of the annotation probe/scheme, http if
      there is none or an empty one; the path is that of probe/path, even an empty one, /healthz if there is none. */
  lemma AnnotationsDecide(slice: EndpointSlice, services: Services, name: Str, notes: map<Str, Str>, s: Str, p: Str,
      a: Str)
    requires Serves(slice, services, name, notes)
    requires ((Ascii("probe/scheme"), s) in notes.Items && s != [])
      || (s == Ascii("http") && (Ascii("probe/scheme") in notes ==> notes[Ascii("probe/scheme")] == []))
    requires (Ascii("probe/path"), p) in notes.Items || (Ascii("probe/path") !in notes && p == Ascii("/healthz"))
    ensures a in ListOf(slice, services) <==> exists ep, ip, n :: Rendering.Renders(a, slice, s, p, ep, ip, n)
  {
    hide Ascii;
    assert SchemeAndPath(slice, services) == (s, p);
    Rendering.DerivedExactly(slice, s, p, a);
  }

  lemma ServedIfNoted(slice: EndpointSlice, services: Services)
    ensures SchemeAndPath(slice, services) == (Ascii("http"), Ascii("/healthz")) ||
      exists name, notes :: Serves(slice, services, name, notes)
  {
    hide Ascii;
    var tag := Ascii("kubernetes.io/service-name");
    if tag in slice.labels && slice.labels[tag] != [] && (slice.namespace, slice.labels[tag]) in services {
      assert Serves(slice, services, slice.labels[tag], services[(slice.namespace, slice.labels[tag])]);
    }
  }

  /** Without a service name or a service in the cache, a slice is probed by http under /healthz. */
  lemma DefaultsDecide(slice: EndpointSlice, services: Services, a: Str)
    requires forall name, notes :: !Serves(slice, services, name, notes)
    ensures a in ListOf(slice, services) <==>
      exists ep, ip, n :: Rendering.Renders(a, slice, Ascii("http"), Ascii("/healthz"), ep, ip, n)
  {
    hide Ascii;
    ServedIfNoted(slice, services);
    Rendering.DerivedExactly(slice, Ascii("http"), Ascii("/healthz"), a);
  }

  function React(s: State, n: Notification, services: Services): State
  {
    match Handle(n, services)
    case Some(op) => After(s, op)
    case None => s
  }

  /** The informer's store after a notification, by slice key. */
  function Store(store: map<Str, EndpointSlice>, n: Notification): map<Str, EndpointSlice>
  {
    if n.Deleted? then store - {n.slice.Key()} else store[n.slice.Key() := n.slice]
  }

  function ListOf(slice: EndpointSlice, services: Services): seq<Str>
  {
    var (scheme, path) := SchemeAndPath(slice, services);
    Rendering.Derived(slice, scheme, path)
  }

  // ---------------------------------------------------------------- whole histories

  /** The registry beside the informer caches.  `seen` remembers, for each stored slice, the service cache at the time
      the slice was handled last: a changed annotation takes effect only when the slice is notified again. */
  datatype Watch = Watch(reg: State, store: map<Str, EndpointSlice>, services: Services, seen: map<Str, Services>)

  datatype Input =
    | Notify(n: Notification)         // a slice notification is handled
    | Annotate(services: Services)    // the service cache changes
    | Aggregate(peerIPs: seq<Str>)    // the peer list is collected anew
    | Direct(op: Op)                  // a registry operation of another origin

  function Start(claims: Claim): Watch
  {
    Watch(RegistryState.Init(claims), map[], map[], map[])
  }

  function Seen(w: Watch, n: Notification): map<Str, Services>
  {
    if n.Deleted? then w.seen - {n.slice.Key()} else w.seen[n.slice.Key() := w.services]
  }

  function Notice(w: Watch, n: Notification): Watch
  {
    w.(reg := React(w.reg, n, w.services), store := Store(w.store, n), seen := Seen(w, n))
  }

  function HandlePeers(s: State, peerIPs: seq<Str>): State
  {
    match PeerOp(peerIPs)
    case Some(op) => After(s, op)
    case None => s
  }

  function Take(w: Watch, input: Input): Watch
  {
    match input
    case Notify(n) => Notice(w, n)
    case Annotate(services) => w.(services := services)
    case Aggregate(peerIPs) => w.(reg := HandlePeers(w.reg, peerIPs))
    case Direct(op) => w.(reg := After(w.reg, op))
  }

  /** Registry and caches after a history of inputs. */
  function Follow(claims: Claim, inputs: seq<Input>): Watch
  {
    if inputs == [] then Start(claims) else Take(Follow(claims, inputs[..|inputs| - 1]), inputs[|inputs| - 1])
  }

  // ---------------------------------------------------------------- slices in step with the store

  /** The registry knows exactly the probe-enabled slices of the store, with the addresses they derived when they were
      handled last. */
  ghost predicate Mirrors(w: Watch)
  {
    && w.seen.Keys == w.store.Keys
    && w.reg.slices == map k | k in w.store && Probed(w.store[k]) :: ListOf(w.store[k], w.seen[k])
  }

  /** The notification hides that a slice was probed before: the label is gone from the very object that announces the
      addition or deletion. */
  predicate LosesLabel(store: map<Str, EndpointSlice>, n: Notification)
  {
    var k := n.slice.Key();
    !n.Updated? && k in store && Probed(store[k]) && !Probed(n.slice)
  }

  /** Handling a notification keeps the registry in step with the store exactly when the notification does not drop the
      label of a slice that is in the store as probed. */
  lemma MirrorIff(w: Watch, n: Notification)
    requires Mirrors(w)
    ensures Mirrors(Notice(w, n)) <==> !LosesLabel(w.store, n)
  {
    hide React, ListOf, Probed;
    var k := n.slice.Key();
    ReactSlices(w.reg, n, w.services);
    var v := Notice(w, n);
    var want := map x | x in v.store && x in v.seen && Probed(v.store[x]) :: ListOf(v.store[x], v.seen[x]);
    if LosesLabel(w.store, n) {
      assert k in v.reg.slices && k !in want;
    } else {
      forall x
        ensures x in v.reg.slices <==> x in want
        ensures x in want ==> v.reg.slices[x] == want[x]
      {
        if x != k {
          assert x in v.store <==> x in w.store;
        }
      }
      assert v.reg.slices == want;
    }
  }

  /** A notification touches the list of its own slice only. */
  lemma ReactSlices(s: State, n: Notification, services: Services)
    ensures var k, t := n.slice.Key(), React(s, n, services);
      t.slices == if !n.Deleted? && Probed(n.slice) then s.slices[k := ListOf(n.slice, services)]
                  else if n.Updated? || (n.Deleted? && Probed(n.slice)) then s.slices - {k} else s.slices
  {
  }

  /** No notification hides a label, and slices are touched through notifications only. */
  predicate Faithful(claims: Claim, inputs: seq<Input>)
  {
    inputs == [] ||
    (Faithful(claims, inputs[..|inputs| - 1]) &&
      Admissible(Follow(claims, inputs[..|inputs| - 1]), inputs[|inputs| - 1]))
  }

  predicate Admissible(w: Watch, input: Input)
  {
    match input
    case Notify(n) => !LosesLabel(w.store, n)
    case Annotate(_) => true
    case Aggregate(_) => true
    case Direct(op) => !op.UpdateSlice? && !op.RemoveSlice?
  }

  predicate WellKeyed(store: map<Str, EndpointSlice>)
  {
    forall k :: k in store ==> store[k].Key() == k
  }

  lemma TakeMirrors(w: Watch, input: Input)
    requires Mirrors(w) && WellKeyed(w.store) && Admissible(w, input)
    ensures Mirrors(Take(w, input)) && WellKeyed(Take(w, input).store)
  {
    if input.Notify? {
      hide Mirrors, LosesLabel, Probed, React, Seen;
      MirrorIff(w, input.n);
    } else {
      hide Take, Probed, ListOf, Admissible;
      SlicesUntouched(w, input);
    }
  }

  lemma SlicesUntouched(w: Watch, input: Input)
    requires Admissible(w, input) && !input.Notify?
    ensures var v := Take(w, input); v.reg.slices == w.reg.slices && v.store == w.store && v.seen == w.seen
  {
  }

  lemma TakeConsistent(w: Watch, input: Input)
    requires Consistent(w.reg)
    ensures Consistent(Take(w, input).reg) && Take(w, input).reg.claims == w.reg.claims
  {
    match input
    case Notify(n) =>
      match Handle(n, w.services) {
        case Some(op) => StepConsistent(w.reg, op);
        case None =>
      }
    case Annotate(_) =>
    case Aggregate(peerIPs) => StepConsistent(w.reg, Op.UpdatePeers(peerIPs));
    case Direct(op) => StepConsistent(w.reg, op);
  }

  /** From the start, through any faithful history, the registry stays consistent and in step with the store. */
  lemma {:induction false} HistoryMirrors(claims: Claim, inputs: seq<Input>)
    requires Faithful(claims, inputs)
    ensures var w := Follow(claims, inputs);
      Consistent(w.reg) && w.reg.claims == claims && Mirrors(w) && WellKeyed(w.store)
  {
    if inputs == [] {
      InitConsistent(claims);
    } else {
      hide Consistent, Mirrors, Admissible, Take, WellKeyed;
      var front := inputs[..|inputs| - 1];
      HistoryMirrors(claims, front);
      TakeConsistent(Follow(claims, front), inputs[|inputs| - 1]);
      TakeMirrors(Follow(claims, front), inputs[|inputs| - 1]);
    }
  }

  /** The registry went through some history of operations. */
  lemma {:induction false} FollowHistory(claims: Claim, inputs: seq<Input>) returns (ops: seq<Op>)
    ensures Follow(claims, inputs).reg == Run(RegistryState.Init(claims), ops)
  {
    if inputs == [] {
      ops := [];
    } else {
      var w := Follow(claims, inputs[..|inputs| - 1]);
      ops := FollowHistory(claims, inputs[..|inputs| - 1]);
      var next := Issued(w, inputs[|inputs| - 1]);
      if next.Some? {
        var more := ops + [next.value];
        assert more[..|more| - 1] == ops;
        ops := more;
      }
    }
  }

  /** The registry operation an input causes. */
  function Issued(w: Watch, input: Input): (op: Option<Op>)
    ensures Take(w, input).reg == if op.Some? then After(w.reg, op.value) else w.reg
  {
    match input
    case Notify(n) => Handle(n, w.services)
    case Annotate(_) => None
    case Aggregate(peerIPs) => PeerOp(peerIPs)
    case Direct(op) => Some(op)
  }

  // ---------------------------------------------------------------- resync

  /** `op` delivers a probed slice of the store as updated. */
  predicate Delivers(store: map<Str, EndpointSlice>, services: Services, op: Op)
  {
    && op.UpdateSlice? && op.slice.Key() in store && store[op.slice.Key()] == op.slice && Probed(op.slice)
    && op == Update(op.slice, services)
  }

  /** `op` installs a peer list collected from the store, in any order; an empty one is not forwarded. */
  predicate Collects(store: map<Str, EndpointSlice>, op: Op)
  {
    op.UpdatePeers? && op.peers != [] && Members(op.peers) == PeerIPs(store.Values)
  }

  /** Each notification of a resync runs two handlers: one delivers the slice, the other collects the peers. */
  predicate Occurs(store: map<Str, EndpointSlice>, services: Services, op: Op)
  {
    Delivers(store, services, op) || Collects(store, op)
  }

  /** The operations of a resync: every probed slice of the store is delivered as updated, in some order, and the
      peers are collected any number of times in between. */
  predicate ResyncOf(store: map<Str, EndpointSlice>, services: Services, ops: seq<Op>)
  {
    && (forall op :: op in ops ==> Occurs(store, services, op))
    && (forall k :: k in store && Probed(store[k]) ==> Update(store[k], services) in ops)
  }

  /** The lists of all probed slices as the current annotations derive them. */
  function CurrentLists(store: map<Str, EndpointSlice>, services: Services): map<Str, seq<Str>>
  {
    map k | k in store && Probed(store[k]) :: ListOf(store[k], services)
  }

  /** All addresses of the probed slices of a store. */
  function DerivedFrom(store: map<Str, EndpointSlice>, services: Services): set<Str>
  {
    set k, a | k in store && Probed(store[k]) && a in ListOf(store[k], services) :: a
  }

  /** `t` is `s` with the lists of `keys` brought up to date, and no static target changed. */
  predicate Refreshed(s: State, t: State, keys: set<Str>, current: map<Str, seq<Str>>)
    requires s.slices.Keys == current.Keys
  {
    && t.slices == (map k | k in s.slices :: if k in keys then current[k] else s.slices[k])
    && Statics(t) == Statics(s)
  }

  lemma {:induction false} ResyncLists(s: State, store: map<Str, EndpointSlice>, services: Services, ops: seq<Op>)
    requires s.slices.Keys == CurrentLists(store, services).Keys &&
      forall op :: op in ops ==> Occurs(store, services, op)
    ensures Refreshed(s, Run(s, ops), RelistedKeys(ops), CurrentLists(store, services))
  {
    hide After, Refreshed, CurrentLists, Statics, ListOf, Delivers, Collects;
    if ops == [] {
      RefreshedNone(s, CurrentLists(store, services));
      assert RelistedKeys(ops) == {};
    } else {
      var n := |ops| - 1;
      var front, last := ops[..n], ops[n];
      ResyncLists(s, store, services, front);
      assert last in ops && ops == front + [last];
      if Delivers(store, services, last) {
        DeliveredKeys(store, services, front, last);
        RelistOne(Run(s, front), store, services, last);
        RefreshMore(s, Run(s, front), Run(s, ops), RelistedKeys(front), CurrentLists(store, services),
          last.slice.Key());
      } else {
        CollectedKeys(store, front, last);
        CollectOne(Run(s, front), store, last);
        RefreshSame(s, Run(s, front), Run(s, ops), RelistedKeys(front), CurrentLists(store, services));
      }
    }
  }

  lemma RefreshedNone(s: State, current: map<Str, seq<Str>>)
    requires s.slices.Keys == current.Keys
    ensures Refreshed(s, s, {}, current)
  {
    assert s.slices == map k | k in s.slices :: s.slices[k];
  }

  lemma DeliveredKeys(store: map<Str, EndpointSlice>, services: Services, front: seq<Op>, last: Op)
    requires Delivers(store, services, last)
    ensures last.UpdateSlice? && RelistedKeys(front + [last]) == RelistedKeys(front) + {last.slice.Key()}
  {
  }

  lemma CollectedKeys(store: map<Str, EndpointSlice>, front: seq<Op>, last: Op)
    requires Collects(store, last)
    ensures last.UpdatePeers? && RelistedKeys(front + [last]) == RelistedKeys(front)
  {
  }

  lemma CollectOne(s: State, store: map<Str, EndpointSlice>, op: Op)
    requires Collects(store, op)
    ensures After(s, op).slices == s.slices && After(s, op).targets == s.targets && Statics(After(s, op)) == Statics(s)
  {
  }

  lemma RefreshMore(s: State, t: State, u: State, keys: set<Str>, current: map<Str, seq<Str>>, k: Str)
    requires s.slices.Keys == current.Keys && Refreshed(s, t, keys, current) && k in current
    requires u.slices == t.slices[k := current[k]] && Statics(u) == Statics(t)
    ensures Refreshed(s, u, keys + {k}, current)
  {
    hide Statics;
  }

  lemma RefreshSame(s: State, t: State, u: State, keys: set<Str>, current: map<Str, seq<Str>>)
    requires s.slices.Keys == current.Keys && Refreshed(s, t, keys, current)
    requires u.slices == t.slices && Statics(u) == Statics(t)
    ensures Refreshed(s, u, keys, current)
  {
    hide Statics;
  }

  lemma RelistOne(s: State, store: map<Str, EndpointSlice>, services: Services, op: Op)
    requires Delivers(store, services, op)
    ensures op.slice.Key() in CurrentLists(store, services)
    ensures var t := After(s, op);
      && t.slices == s.slices[op.slice.Key() := CurrentLists(store, services)[op.slice.Key()]]
      && Statics(t) == Statics(s)
  {
    assert Statics(After(s, op)) == Statics(s);
  }

  /** The lists the registry holds are those of the current annotations. */
  ghost predicate UpToDate(w: Watch)
  {
    w.reg.slices == CurrentLists(w.store, w.services)
  }

  /** One resync puts the current annotations into force, whatever they were before. */
  lemma ResyncUpdates(claims: Claim, inputs: seq<Input>, ops: seq<Op>)
    requires Faithful(claims, inputs)
    requires ResyncOf(Follow(claims, inputs).store, Follow(claims, inputs).services, ops)
    ensures var w := Follow(claims, inputs); var v := w.(reg := Run(w.reg, ops));
      UpToDate(v) && Statics(v.reg) == Statics(w.reg)
  {
    HistoryMirrors(claims, inputs);
    hide Consistent, Follow, Faithful, Mirrors, ResyncOf, UpToDate, Statics, Run, WellKeyed;
    RefreshAll(Follow(claims, inputs), ops);
  }

  lemma RefreshAll(w: Watch, ops: seq<Op>)
    requires Mirrors(w) && WellKeyed(w.store) && ResyncOf(w.store, w.services, ops)
    ensures var v := w.(reg := Run(w.reg, ops));
      UpToDate(v) && Statics(v.reg) == Statics(w.reg)
  {
    MirroredKeys(w);
    ResyncLists(w.reg, w.store, w.services, ops);
    ResyncCovers(w, ops);
    hide CurrentLists, Statics, Run, ResyncOf, Mirrors;
    assert Run(w.reg, ops).slices == CurrentLists(w.store, w.services);
  }

  lemma MirroredKeys(w: Watch)
    requires Mirrors(w)
    ensures w.reg.slices.Keys == CurrentLists(w.store, w.services).Keys
  {
    hide Probed, ListOf;
  }

  lemma ResyncCovers(w: Watch, ops: seq<Op>)
    requires WellKeyed(w.store) && ResyncOf(w.store, w.services, ops)
    ensures RelistedKeys(ops) == CurrentLists(w.store, w.services).Keys
  {
    forall op | op in ops && op.UpdateSlice?
      ensures op.slice.Key() in CurrentLists(w.store, w.services)
    {
      assert Occurs(w.store, w.services, op);
    }
    forall k | k in CurrentLists(w.store, w.services)
      ensures k in RelistedKeys(ops)
    {
      assert Update(w.store[k], w.services) in ops && Update(w.store[k], w.services).slice.Key() == k;
    }
  }

  /** The periodic resync.  After any faithful history, overlaps, removals of listed addresses and changed annotations
      included: once the lists are up to date, and one resync makes them so, a resync deletes nothing and ends with the
      targets being the static ones plus all addresses the stored slices derive. */
  lemma ResyncFromStore(claims: Claim, inputs: seq<Input>, ops: seq<Op>, again: seq<Op>)
    requires Faithful(claims, inputs)
    requires ResyncOf(Follow(claims, inputs).store, Follow(claims, inputs).services, ops)
    requires ResyncOf(Follow(claims, inputs).store, Follow(claims, inputs).services, again)
    ensures var w := Follow(claims, inputs);
      UpToDate(w) ==>
        && Keeps(w.reg, Run(w.reg, ops)) && Agrees(Run(w.reg, ops))
        && Run(w.reg, ops).targets.Keys == Statics(w.reg) + DerivedFrom(w.store, w.services)
    ensures var w := Follow(claims, inputs);
      var first, second := Run(w.reg, ops), Run(Run(w.reg, ops), again);
      && Keeps(first, second) && Agrees(second)
      && second.targets.Keys == Statics(w.reg) + DerivedFrom(w.store, w.services)
  {
    var w := Follow(claims, inputs);
    HistoryMirrors(claims, inputs);
    RunConsistent(w.reg, ops);
    ResyncUpdates(claims, inputs, ops);
    hide Consistent, Keeps, Agrees, ResyncOf, UpToDate, Mirrors, Follow, Faithful, Run, DerivedFrom, Statics;
    if UpToDate(w) {
      UpToDateResync(w, ops);
    }
    UpToDateResync(w.(reg := Run(w.reg, ops)), again);
  }

  /** With no peer update in between, it stops no scheduler either. */
  lemma UpToDateResync(w: Watch, ops: seq<Op>)
    requires Consistent(w.reg) && WellKeyed(w.store) && UpToDate(w) && ResyncOf(w.store, w.services, ops)
    ensures Keeps(w.reg, Run(w.reg, ops)) && Agrees(Run(w.reg, ops)) &&
      (NoPeers(ops) ==> Extends(w.reg, Run(w.reg, ops)))
    ensures Run(w.reg, ops).targets.Keys == Statics(w.reg) + DerivedFrom(w.store, w.services)
  {
    hide Consistent, Keeps, Extends, Agrees, Run;
    ResyncRelists(w, ops);
    ResyncConverges(w.reg, ops);
    ListedIsDerived(w);
  }

  lemma ListedIsDerived(w: Watch)
    requires UpToDate(w)
    ensures AllListed(w.reg) == DerivedFrom(w.store, w.services)
  {
    forall k, a | k in w.reg.slices && a in w.reg.slices[k]
      ensures a in DerivedFrom(w.store, w.services)
    {
      assert k in w.store && a in ListOf(w.store[k], w.services);
    }
    forall k, a | k in w.store && Probed(w.store[k]) && a in ListOf(w.store[k], w.services)
      ensures a in AllListed(w.reg)
    {
      assert k in w.reg.slices && a in w.reg.slices[k];
    }
  }

  lemma ResyncRelists(w: Watch, ops: seq<Op>)
    requires UpToDate(w) && WellKeyed(w.store) && ResyncOf(w.store, w.services, ops)
    ensures Resync(w.reg, ops)
  {
    forall op | op in ops
      ensures Delivery(w.reg, op)
    {
      assert Occurs(w.store, w.services, op);
      if Delivers(w.store, w.services, op) {
        RelistsStored(w, op.slice);
      }
    }
    ResyncCovers(w, ops);
  }

  lemma RelistsStored(w: Watch, slice: EndpointSlice)
    requires UpToDate(w) && Probed(slice)
    requires slice.Key() in w.store && w.store[slice.Key()] == slice
    ensures Relists(w.reg, Update(slice, w.services))
  {
    assert w.reg.slices[slice.Key()] == ListOf(slice, w.services);
  }

  // ---------------------------------------------------------------- peers in step with the store

  /** The registry's peer list names the ready prober pods of the store. */
  ghost predicate KnowsPeers(w: Watch)
  {
    Members(w.reg.peers) == PeerIPs(w.store.Values)
  }

  /** Collecting the peers anew, in whatever order the store lists its slices, brings the peer list up to date exactly
      when there is a ready prober pod; without one the last list stays. */
  lemma KnowsPeersIff(w: Watch, peerIPs: seq<Str>)
    requires Members(peerIPs) == PeerIPs(w.store.Values)
    ensures KnowsPeers(Take(w, Aggregate(peerIPs))) <==> PeerIPs(w.store.Values) != {} || w.reg.peers == []
  {
    hide PeerIPs;
    if peerIPs != [] {
      assert peerIPs[0] in Members(peerIPs);
    }
    if w.reg.peers != [] {
      assert w.reg.peers[0] in Members(w.reg.peers);
    }
  }

  /** A resync leaves the peer list naming the store's ready prober pods if it did before, or if it collects them
      once. */
  lemma ResyncPeers(w: Watch, ops: seq<Op>)
    requires ResyncOf(w.store, w.services, ops) && (KnowsPeers(w) || UpdatesPeers(ops))
    ensures KnowsPeers(w.(reg := Run(w.reg, ops)))
  {
    forall op | op in ops && op.UpdatePeers?
      ensures Members(op.peers) == PeerIPs(w.store.Values)
    {
      assert Occurs(w.store, w.services, op);
    }
    hide PeerIPs, Run;
    PeersInstalled(w.reg, ops, PeerIPs(w.store.Values));
  }
}

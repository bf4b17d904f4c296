/** When one resync is enough after service annotations have changed.  A changed scheme or path gives every address of
    a slice another rendering, and the slices come to the registry one by one (pkg/prober/informer.go, lines 93-98).
    */
module Annotations {
  import opened Bytes
  import opened Targets
  import opened RegistryState
  import opened RegistryLaws
  import opened Reconciliation
  import opened Informer
  import Rendering

  /** The list a delivery brings. */
  function Brought(w: Watch, op: Op): seq<Str>
  {
    if op.UpdateSlice? then ListOf(op.slice, w.services) else []
  }

  /** The `i`-th operation lists `a`. */
  predicate Lists(w: Watch, ops: seq<Op>, i: nat, a: Str)
  {
    i < |ops| && a in Brought(w, ops[i])
  }

  /** The `i`-th operation is the first delivery of its slice, and `a` is on the list known so far, but not on the one
      brought. */
  predicate Drops(w: Watch, ops: seq<Op>, i: nat, a: Str)
  {
    i < |ops| && ops[i].UpdateSlice? && ops[i].slice.Key() !in RelistedKeys(ops[..i]) &&
    a in Listed(w.reg, ops[i].slice.Key()) && a !in Brought(w, ops[i])
  }

  /** Some delivery drops `a`, and none of those after it lists it. */
  ghost predicate StaysDropped(w: Watch, ops: seq<Op>, a: Str)
  {
    exists i: nat :: Drops(w, ops, i, a) && forall j: nat :: i < j ==> !Lists(w, ops, j, a)
  }

  /** In step with the store, apart from annotations, and consistent. */
  ghost predicate Stale(w: Watch)
  {
    Consistent(w.reg) && WellKeyed(w.store) && w.reg.slices.Keys == CurrentLists(w.store, w.services).Keys
  }

  predicate AllOccur(w: Watch, ops: seq<Op>)
  {
    forall op :: op in ops ==> Occurs(w.store, w.services, op)
  }

  lemma ListsMore(w: Watch, front: seq<Op>, last: Op, i: nat, a: Str)
    ensures Lists(w, front + [last], i, a) <==> Lists(w, front, i, a) || (i == |front| && a in Brought(w, last))
  {
  }

  lemma DropsMore(w: Watch, front: seq<Op>, last: Op, i: nat, a: Str)
    ensures Drops(w, front + [last], i, a) <==> Drops(w, front, i, a) || (i == |front| && DropsNow(w, front, last, a))
  {
    if i <= |front| {
      assert (front + [last])[..i] == front[..i];
      assert front[..|front|] == front;
    }
  }

  predicate DropsNow(w: Watch, front: seq<Op>, last: Op, a: Str)
  {
    last.UpdateSlice? && last.slice.Key() !in RelistedKeys(front) && a in Listed(w.reg, last.slice.Key()) &&
      a !in Brought(w, last)
  }

  lemma DroppedMore(w: Watch, front: seq<Op>, last: Op, a: Str)
    ensures StaysDropped(w, front + [last], a) <==>
      a !in Brought(w, last) && (StaysDropped(w, front, a) || DropsNow(w, front, last, a))
  {
    var ops := front + [last];
    forall i: nat
      ensures Lists(w, ops, i, a) <==> Lists(w, front, i, a) || (i == |front| && a in Brought(w, last))
      ensures Drops(w, ops, i, a) <==> Drops(w, front, i, a) || (i == |front| && DropsNow(w, front, last, a))
    {
      ListsMore(w, front, last, i, a);
      DropsMore(w, front, last, i, a);
    }
    assert forall i: nat :: Drops(w, front, i, a) || Lists(w, front, i, a) ==> i < |front|;
    hide Lists, Drops, Brought;
    if StaysDropped(w, ops, a) {
      var i: nat :| Drops(w, ops, i, a) && forall j: nat :: i < j ==> !Lists(w, ops, j, a);
      assert i < |front| ==> !Lists(w, ops, |front|, a);
    }
    if a !in Brought(w, last) && DropsNow(w, front, last, a) {
      assert Drops(w, ops, |front|, a);
    }
  }

  /** An operation in the middle of a resync: what becomes of one dynamic address. */
  lemma OccurrenceEffect(w: Watch, front: seq<Op>, last: Op, a: Str)
    requires Stale(w) && AllOccur(w, front) && Occurs(w.store, w.services, last) && a !in Statics(w.reg)
    ensures var s := Run(w.reg, front);
      a in After(s, last).targets <==> a in Brought(w, last) || (a in s.targets && !DropsNow(w, front, last, a))
  {
    hide Stale, Statics, Run, ListOf, Delivers;
    if Delivers(w.store, w.services, last) {
      DeliveryEffect(w, front, last, a);
    } else {
      CollectOne(Run(w.reg, front), w.store, last);
    }
  }

  lemma DeliveryEffect(w: Watch, front: seq<Op>, last: Op, a: Str)
    requires Stale(w) && AllOccur(w, front) && Delivers(w.store, w.services, last) && a !in Statics(w.reg)
    ensures var s := Run(w.reg, front);
      a in After(s, last).targets <==> a in Brought(w, last) || (a in s.targets && !DropsNow(w, front, last, a))
  {
    var s, k := Run(w.reg, front), last.slice.Key();
    ResyncLists(w.reg, w.store, w.services, front);
    hide Run, ListOf, Stale, Delivers;
    assert a !in Statics(s);
    assert Brought(w, last) == CurrentLists(w.store, w.services)[k] by {
      ListOfDelivered(w, last);
    }
    HeldList(w.reg, s, RelistedKeys(front), CurrentLists(w.store, w.services), k);
    UpdatedAddress(s, last, Brought(w, last), a) by {
      ListOfDelivered(w, last);
    }
  }

  lemma HeldList(s: State, t: State, keys: set<Str>, current: map<Str, seq<Str>>, k: Str)
    requires s.slices.Keys == current.Keys && Refreshed(s, t, keys, current) && k in current
    ensures Listed(t, k) == if k in keys then current[k] else Listed(s, k)
  {
  }

  lemma ListOfDelivered(w: Watch, op: Op)
    requires Delivers(w.store, w.services, op)
    ensures op.slice.Key() in CurrentLists(w.store, w.services)
    ensures CurrentLists(w.store, w.services)[op.slice.Key()] == Brought(w, op)
    ensures Rendering.Derived(op.slice, op.scheme, op.path) == Brought(w, op)
  {
  }

  lemma UpdatedAddress(s: State, op: Op, list: seq<Str>, a: Str)
    requires op.UpdateSlice? && list == Rendering.Derived(op.slice, op.scheme, op.path) && a !in Statics(s)
    ensures a in After(s, op).targets <==> a in list || (a in s.targets && a !in Listed(s, op.slice.Key()))
  {
  }

  /** A dynamic address is registered after some deliveries exactly when it was before or one of them lists it, and no
      delivery has dropped it since. */
  lemma {:induction false} DynamicAfter(w: Watch, ops: seq<Op>, a: Str)
    requires Stale(w) && AllOccur(w, ops) && a !in Statics(w.reg)
    ensures a in Run(w.reg, ops).targets <==>
      (a in w.reg.targets || exists i: nat :: Lists(w, ops, i, a)) && !StaysDropped(w, ops, a)
  {
    hide Stale, Occurs, Statics, After, DropsNow;
    if ops == [] {
    } else {
      var n := |ops| - 1;
      var front, last := ops[..n], ops[n];
      assert last in ops && ops == front + [last];
      DynamicAfter(w, front, a);
      OccurrenceEffect(w, front, last, a);
      DroppedMore(w, front, last, a);
      AnyLists(w, front, last, a);
      hide Lists, StaysDropped, Brought;
    }
  }

  lemma AnyLists(w: Watch, front: seq<Op>, last: Op, a: Str)
    ensures (exists i: nat :: Lists(w, front + [last], i, a)) <==>
      (exists i: nat :: Lists(w, front, i, a)) || a in Brought(w, last)
  {
    forall i: nat
      ensures Lists(w, front + [last], i, a) <==> Lists(w, front, i, a) || (i == |front| && a in Brought(w, last))
    {
      ListsMore(w, front, last, i, a);
    }
    hide Lists, Brought;
    if a in Brought(w, last) {
      assert Lists(w, front + [last], |front|, a);
    }
    if exists i: nat :: Lists(w, front, i, a) {
      var i: nat :| Lists(w, front, i, a);
      assert Lists(w, front + [last], i, a);
    }
  }

  lemma ResyncAgreesIff(w: Watch, ops: seq<Op>)
    requires Stale(w) && ResyncOf(w.store, w.services, ops)
    ensures Agrees(Run(w.reg, ops)) <==>
      forall a :: a in DerivedFrom(w.store, w.services) && a !in Statics(w.reg) ==> !StaysDropped(w, ops, a)
  {
    var t := Run(w.reg, ops);
    RunConsistent(w.reg, ops);
    AgreesIffListedRegistered(t);
    AfterResync(w, ops);
    forall a | a in DerivedFrom(w.store, w.services) && a !in Statics(w.reg)
      ensures a in t.targets <==> !StaysDropped(w, ops, a)
    {
      DerivedIsDelivered(w, ops, a);
      DynamicAfter(w, ops, a);
    }
    forall a | a in Statics(w.reg)
      ensures a in t.targets
    {
      assert a in Statics(t);
    }
  }

  lemma AfterResync(w: Watch, ops: seq<Op>)
    requires Stale(w) && ResyncOf(w.store, w.services, ops)
    ensures AllListed(Run(w.reg, ops)) == DerivedFrom(w.store, w.services) && Statics(Run(w.reg, ops)) == Statics(w.reg)
  {
    ResyncLists(w.reg, w.store, w.services, ops);
    ResyncCovers(w, ops);
    hide Consistent, Statics, Run, ResyncOf, ListOf;
    var v := w.(reg := Run(w.reg, ops));
    assert v.reg.slices == CurrentLists(w.store, w.services);
    ListedIsDerived(v);
  }

  lemma DerivedIsDelivered(w: Watch, ops: seq<Op>, a: Str)
    requires ResyncOf(w.store, w.services, ops) && a in DerivedFrom(w.store, w.services)
    ensures exists i: nat :: Lists(w, ops, i, a)
  {
    var k :| k in w.store && Probed(w.store[k]) && a in ListOf(w.store[k], w.services);
    var i :| 0 <= i < |ops| && ops[i] == Update(w.store[k], w.services);
    assert Lists(w, ops, i, a);
  }

  lemma FollowedIsStale(claims: Claim, inputs: seq<Input>)
    requires Faithful(claims, inputs)
    ensures Stale(Follow(claims, inputs))
  {
    HistoryMirrors(claims, inputs);
    hide Consistent, Faithful, Follow, CurrentLists, Mirrors;
    MirroredKeys(Follow(claims, inputs));
  }

  /** After any faithful history, one resync, in the order `ops`, restores the set view exactly when every dynamic
      address that some stored slice derives is listed again after its last drop. */
  lemma OneResyncIff(claims: Claim, inputs: seq<Input>, ops: seq<Op>)
    requires Faithful(claims, inputs)
    requires ResyncOf(Follow(claims, inputs).store, Follow(claims, inputs).services, ops)
    ensures var w := Follow(claims, inputs);
      Agrees(Run(w.reg, ops)) <==>
        forall a :: a in DerivedFrom(w.store, w.services) && a !in Statics(w.reg) ==> !StaysDropped(w, ops, a)
  {
    FollowedIsStale(claims, inputs);
    ResyncAgreesIff(Follow(claims, inputs), ops);
  }

  // ---------------------------------------------------------------- one resync in any order

  /** By the change of annotations `a` leaves slice `k`, while some slice derives it. */
  predicate Moves(w: Watch, k: Str, a: Str)
  {
    var current := CurrentLists(w.store, w.services);
    k in current && a in Listed(w.reg, k) && a !in current[k] && a in DerivedFrom(w.store, w.services) &&
      a !in Statics(w.reg)
  }

  /** One resync restores the set view, whatever the order in which the store lists its slices. */
  ghost predicate AnyResyncWorks(w: Watch)
  {
    forall ops :: ResyncOf(w.store, w.services, ops) ==> Agrees(Run(w.reg, ops))
  }

  lemma StoredDelivers(w: Watch, k: Str)
    requires Stale(w) && k in CurrentLists(w.store, w.services)
    ensures k in w.store && Probed(w.store[k])
    ensures var op := Update(w.store[k], w.services);
      && op.UpdateSlice? && Delivers(w.store, w.services, op) && op.slice.Key() == k &&
        Brought(w, op) == CurrentLists(w.store, w.services)[k]
  {
    hide Consistent, Probed;
  }

  lemma NothingRelisted()
    ensures RelistedKeys([]) == {}
  {
  }

  /** Some order of deliveries for these slices. */
  lemma {:induction false} DeliverAll(w: Watch, keys: set<Str>) returns (ops: seq<Op>)
    requires Stale(w) && keys <= CurrentLists(w.store, w.services).Keys && keys <= w.store.Keys
    ensures RelistedKeys(ops) == keys && forall op :: op in ops ==> Delivers(w.store, w.services, op)
    ensures forall k :: k in keys ==> Update(w.store[k], w.services) in ops
    decreases |keys|
  {
    hide Stale, Delivers, CurrentLists, Update, RelistedKeys;
    if keys == {} {
      ops := [];
      NothingRelisted();
    } else {
      var k :| k in keys;
      var front := DeliverAll(w, keys - {k});
      StoredDelivers(w, k);
      var last := Update(w.store[k], w.services);
      DeliveredKeys(w.store, w.services, front, last);
      ops := front + [last];
      assert keys == keys - {k} + {k};
    }
  }

  /** A slice that loses a derived address may be delivered last. */
  lemma MoverLast(w: Watch, k: Str, a: Str) returns (ops: seq<Op>)
    requires Stale(w) && Moves(w, k, a)
    ensures ResyncOf(w.store, w.services, ops) && StaysDropped(w, ops, a)
  {
    hide Stale, StaysDropped, RelistedKeys, Delivers, Collects, CurrentLists, Listed, Brought, Update, DerivedFrom,
      Statics, Probed;
    var current := CurrentLists(w.store, w.services);
    CurrentStored(w);
    var front := DeliverAll(w, current.Keys - {k});
    StoredDelivers(w, k);
    var last := Update(w.store[k], w.services);
    ops := front + [last];
    LastDrops(w, front, last, k, a);
    assert forall x :: x in current ==> Update(w.store[x], w.services) in ops;
  }

  lemma CurrentStored(w: Watch)
    ensures CurrentLists(w.store, w.services).Keys == set k | k in w.store && Probed(w.store[k])
    ensures CurrentLists(w.store, w.services).Keys <= w.store.Keys
  {
    hide Probed;
  }

  lemma LastDrops(w: Watch, front: seq<Op>, last: Op, k: Str, a: Str)
    requires k !in RelistedKeys(front) && last.UpdateSlice? && last.slice.Key() == k
    requires a in Listed(w.reg, k) && a !in Brought(w, last)
    ensures StaysDropped(w, front + [last], a)
  {
    hide Brought, Listed, RelistedKeys;
    assert (front + [last])[..|front|] == front;
    assert Drops(w, front + [last], |front|, a);
  }

  lemma DroppedMoves(w: Watch, ops: seq<Op>, a: Str) returns (k: Str)
    requires ResyncOf(w.store, w.services, ops) && StaysDropped(w, ops, a)
    requires a in DerivedFrom(w.store, w.services) && a !in Statics(w.reg)
    ensures Moves(w, k, a)
  {
    hide ListOf, Probed, DerivedFrom, Statics;
    var i: nat :| Drops(w, ops, i, a);
    assert Occurs(w.store, w.services, ops[i]);
    ListOfDelivered(w, ops[i]);
    k := ops[i].slice.Key();
  }

  lemma AnyResyncWorksIff(w: Watch)
    requires Stale(w)
    ensures AnyResyncWorks(w) <==> forall k, a :: !Moves(w, k, a)
  {
    hide Stale, ResyncOf, Agrees, Run, StaysDropped, DerivedFrom, Statics;
    if AnyResyncWorks(w) {
      forall k, a
        ensures !Moves(w, k, a)
      {
        if Moves(w, k, a) {
          var ops := MoverLast(w, k, a);
          ResyncAgreesIff(w, ops);
          assert !Agrees(Run(w.reg, ops));
        }
      }
    } else {
      var ops :| ResyncOf(w.store, w.services, ops) && !Agrees(Run(w.reg, ops));
      ResyncAgreesIff(w, ops);
      var a :| a in DerivedFrom(w.store, w.services) && a !in Statics(w.reg) && StaysDropped(w, ops, a);
      var k := DroppedMoves(w, ops, a);
    }
  }

  /** After any faithful history, one resync is sure to restore the set view, whatever its order, exactly when no
      dynamic address that is still derived has left a slice by a change of annotations. */
  lemma OneResyncSufficesIff(claims: Claim, inputs: seq<Input>)
    requires Faithful(claims, inputs)
    ensures var w := Follow(claims, inputs); AnyResyncWorks(w) <==> forall k, a :: !Moves(w, k, a)
  {
    FollowedIsStale(claims, inputs);
    AnyResyncWorksIff(Follow(claims, inputs));
  }

  // ---------------------------------------------------------------- one resync may not be enough

  /** A slice is added; the annotations change; another slice is added. */
  function Reannotated(first: EndpointSlice, before: Services, second: EndpointSlice, services: Services): seq<Input>
  {
    [Annotate(before), Notify(Added(first)), Annotate(services), Notify(Added(second))]
  }

  lemma OneMore(claims: Claim, front: seq<Input>, input: Input)
    ensures Follow(claims, front + [input]) == Take(Follow(claims, front), input)
    ensures Faithful(claims, front + [input]) <==> Faithful(claims, front) && Admissible(Follow(claims, front), input)
  {
    hide Take, Admissible;
    assert (front + [input])[..|front|] == front;
  }

  lemma NoticeAdded(w: Watch, slice: EndpointSlice)
    requires Probed(slice)
    ensures var v := Notice(w, Added(slice));
      && v.reg.slices == w.reg.slices[slice.Key() := ListOf(slice, w.services)]
      && Statics(v.reg) == Statics(w.reg)
      && v.store == w.store[slice.Key() := slice] && v.services == w.services
  {
    hide ListOf, Probed;
    ReactSlices(w.reg, Added(slice), w.services);
    assert Statics(React(w.reg, Added(slice), w.services)) == Statics(w.reg);
  }

  /** What that history leads to. */
  lemma AfterReannotation(claims: Claim, first: EndpointSlice, before: Services, second: EndpointSlice,
      services: Services)
    requires Probed(first) && Probed(second) && first.Key() != second.Key()
    ensures var inputs := Reannotated(first, before, second, services);
      var w := Follow(claims, inputs);
      && Faithful(claims, inputs) && w.services == services && Statics(w.reg) == {}
      && w.store == map[first.Key() := first, second.Key() := second]
      && Listed(w.reg, first.Key()) == ListOf(first, before)
  {
    hide Follow, Faithful, Notice, ListOf, Probed;
    var a, b, c, d := Annotate(before), Notify(Added(first)), Annotate(services), Notify(Added(second));
    FromNothing(claims);
    OneMore(claims, [], a);
    OneMore(claims, [a], b);
    OneMore(claims, [a, b], c);
    OneMore(claims, [a, b, c], d);
    assert [] + [a] == [a] && [a] + [b] == [a, b] && [a, b] + [c] == [a, b, c];
    assert [a, b, c] + [d] == Reannotated(first, before, second, services);
    NoticeAdded(Follow(claims, [a]), first);
    NoticeAdded(Follow(claims, [a, b, c]), second);
  }

  lemma FromNothing(claims: Claim)
    ensures Faithful(claims, []) && Follow(claims, []) == Start(claims) && Statics(Start(claims).reg) == {}
  {
  }

  /** The condition can fail: an address moves from one slice to another by a change of annotations, and a resync
      delivers the new owner first.  The old owner's update then unregisters it, although the new owner goes on
      listing it. */
  lemma OneResyncMayLose(claims: Claim, first: EndpointSlice, before: Services, second: EndpointSlice,
      services: Services, a: Str)
      returns (ops: seq<Op>)
    requires Probed(first) && Probed(second) && first.Key() != second.Key()
    requires a in ListOf(first, before) && a !in ListOf(first, services) && a in ListOf(second, services)
    ensures var inputs := Reannotated(first, before, second, services);
      var w := Follow(claims, inputs);
      && Faithful(claims, inputs) && ResyncOf(w.store, w.services, ops)
      && a in DerivedFrom(w.store, w.services) && a !in Run(w.reg, ops).targets
  {
    hide Follow, Faithful, ListOf, Probed, Stale, Run, Listed, Drops, Lists;
    var inputs := Reannotated(first, before, second, services);
    AfterReannotation(claims, first, before, second, services);
    FollowedIsStale(claims, inputs);
    var w := Follow(claims, inputs);
    ops := [Update(second, services), Update(first, services)];
    BothDelivered(w, first, second, ops);
    LastDropStays(w, first, second, a, ops);
    DynamicAfter(w, ops, a);
    assert second.Key() in w.store && w.store[second.Key()] == second;
  }

  lemma BothDelivered(w: Watch, first: EndpointSlice, second: EndpointSlice, ops: seq<Op>)
    requires Probed(first) && Probed(second) && first.Key() != second.Key()
    requires w.store == map[first.Key() := first, second.Key() := second]
    requires ops == [Update(second, w.services), Update(first, w.services)]
    ensures ResyncOf(w.store, w.services, ops) && AllOccur(w, ops)
  {
    hide Probed;
    assert ops[0] in ops && ops[1] in ops;
  }

  lemma LastDropStays(w: Watch, first: EndpointSlice, second: EndpointSlice, a: Str, ops: seq<Op>)
    requires first.Key() != second.Key() && ops == [Update(second, w.services), Update(first, w.services)]
    requires a in Listed(w.reg, first.Key()) && a !in ListOf(first, w.services)
    ensures StaysDropped(w, ops, a)
  {
    hide ListOf;
    assert ops[..1] == [ops[0]];
    assert Drops(w, ops, 1, a);
  }
}

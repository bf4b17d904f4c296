/** When the registered targets agree with what the static definitions and the EndpointSlices list,
    and how re-listing every slice restores the agreement. */
module Reconciliation {
  import opened Bytes
  import opened Targets
  import Rendering
  import opened RegistryState
  import opened RegistryLaws

  function Statics(s: State): set<Str>
  {
    set a | a in s.targets && s.targets[a].isStatic
  }

  /** Every address some slice lists. */
  function AllListed(s: State): set<Str>
  {
    set k, a | k in s.slices && a in s.slices[k] :: a
  }

  /** The simple set view: the targets are the static addresses plus everything the slices list. */
  predicate Agrees(s: State)
  {
    s.targets.Keys == Statics(s) + AllListed(s)
  }

  /** Some slice other than `k` lists `a`. */
  predicate ListedElsewhere(s: State, k: Str, a: Str)
  {
    exists k' :: k' in s.slices && k' != k && a in s.slices[k']
  }

  /** The condition under which an operation respects the set view: it must not delete an address that a slice
      goes on listing. */
  predicate Harmless(s: State, op: Op)
  {
    match op
    case UpdateSlice(slice, scheme, path) =>
      forall a :: a in Vanished(s, slice.Key(), Rendering.Derived(slice, scheme, path)) ==>
        !ListedElsewhere(s, slice.Key(), a)
    case RemoveSlice(slice) =>
      forall a :: a in Droppable(s, Listed(s, slice.Key())) ==> !ListedElsewhere(s, slice.Key(), a)
    case Remove(a) => a in s.targets ==> a !in AllListed(s)
    case _ => true
  }

  lemma Covered(s: State, a: Str)
    requires Consistent(s) && a in s.targets
    ensures a in Statics(s) + AllListed(s)
  {
    if !s.targets[a].isStatic {
      assert Backed(s, a);
    }
  }

  /** In a consistent state the set view can only fail by a listed address that is not registered. */
  lemma AgreesIffListedRegistered(s: State)
    requires Consistent(s)
    ensures Agrees(s) <==> AllListed(s) <= s.targets.Keys
  {
    forall a | a in s.targets
      ensures a in Statics(s) + AllListed(s)
    {
      Covered(s, a);
    }
  }

  lemma UpdateSliceAgreesIff(s: State, k: Str, scheme: Str, list: seq<Str>)
    requires Consistent(s) && Agrees(s)
    ensures var t := AfterUpdateSlice(s, k, scheme, list);
      AllListed(t) <= t.targets.Keys <==> forall a :: a in Vanished(s, k, list) ==> !ListedElsewhere(s, k, a)
  {
    var t := AfterUpdateSlice(s, k, scheme, list);
    forall a | a in Vanished(s, k, list) && ListedElsewhere(s, k, a)
      ensures a in AllListed(t) && a !in t.targets
    {
      var k' :| k' in s.slices && k' != k && a in s.slices[k'];
      assert k' in t.slices && a in t.slices[k'];
    }
    forall a | a in AllListed(t) && a !in t.targets
      ensures a in Vanished(s, k, list) && ListedElsewhere(s, k, a)
    {
      var k' :| k' in t.slices && a in t.slices[k'];
      assert k' != k && k' in s.slices && a in s.slices[k'];
      assert a in AllListed(s);
    }
  }

  lemma RemoveSliceAgreesIff(s: State, k: Str)
    requires Consistent(s) && Agrees(s)
    ensures var t := AfterRemoveSlice(s, k);
      AllListed(t) <= t.targets.Keys <==> forall a :: a in Droppable(s, Listed(s, k)) ==> !ListedElsewhere(s, k, a)
  {
    var t := AfterRemoveSlice(s, k);
    forall a | a in Droppable(s, Listed(s, k)) && ListedElsewhere(s, k, a)
      ensures a in AllListed(t) && a !in t.targets
    {
      var k' :| k' in s.slices && k' != k && a in s.slices[k'];
      assert k' in t.slices && a in t.slices[k'];
    }
    forall a | a in AllListed(t) && a !in t.targets
      ensures a in Droppable(s, Listed(s, k)) && ListedElsewhere(s, k, a)
    {
      var k' :| k' in t.slices && a in t.slices[k'];
      assert k' != k && k' in s.slices && a in s.slices[k'];
      assert a in AllListed(s);
    }
  }

  /** From a state that agrees with the set view, an operation leads to one that agrees exactly when it is harmless. */
  lemma StepAgreesIff(s: State, op: Op)
    requires Consistent(s) && Agrees(s)
    ensures Agrees(After(s, op)) <==> Harmless(s, op)
  {
    var t := After(s, op);
    StepConsistent(s, op);
    AgreesIffListedRegistered(s);
    AgreesIffListedRegistered(t);
    match op
    case UpdateSlice(slice, scheme, path) =>
      UpdateSliceAgreesIff(s, slice.Key(), scheme, Rendering.Derived(slice, scheme, path));
    case RemoveSlice(slice) => RemoveSliceAgreesIff(s, slice.Key());
    case Remove(a) => assert AllListed(t) == AllListed(s);
    case UpdatePeers(_) => assert AllListed(t) == AllListed(s);
    case Add(_) => assert AllListed(t) == AllListed(s);
  }

  /** The whole history is harmless at every step. */
  predicate HarmlessRun(s: State, ops: seq<Op>)
  {
    ops == [] ||
    (HarmlessRun(s, ops[..|ops| - 1]) && Harmless(Run(s, ops[..|ops| - 1]), ops[|ops| - 1]))
  }

  /** Every state the history passes through agrees with the set view. */
  predicate AlwaysAgrees(s: State, ops: seq<Op>)
  {
    forall i :: 0 <= i <= |ops| ==> Agrees(Run(s, ops[..i]))
  }

  /** A history stays in agreement from beginning to end exactly when none of its operations is harmful where it
      occurs. */
  lemma {:induction false} RunAgreesIff(s: State, ops: seq<Op>)
    requires Consistent(s) && Agrees(s)
    ensures AlwaysAgrees(s, ops) <==> HarmlessRun(s, ops)
  {
    hide Agrees, Harmless, Consistent;
    if ops == [] {
      assert AlwaysAgrees(s, ops) by {
        assert ops[..0] == ops;
      }
    } else {
      var n := |ops| - 1;
      var front := ops[..n];
      RunAgreesIff(s, front);
      AlwaysFront(s, ops);
      RunConsistent(s, front);
      if Agrees(Run(s, front)) {
        StepAgreesIff(Run(s, front), ops[n]);
      } else {
        assert front[..n] == front;
      }
    }
  }

  lemma AlwaysFront(s: State, ops: seq<Op>)
    requires ops != []
    ensures AlwaysAgrees(s, ops) <==> AlwaysAgrees(s, ops[..|ops| - 1]) && Agrees(Run(s, ops))
    ensures AlwaysAgrees(s, ops[..|ops| - 1]) ==> Agrees(Run(s, ops[..|ops| - 1]))
  {
    hide Agrees, Run;
    var n := |ops| - 1;
    assert forall i :: 0 <= i <= n ==> ops[..n][..i] == ops[..i];
    assert ops[..|ops|] == ops && ops[..n][..n] == ops[..n];
  }

  predicate DisjointSlices(s: State)
  {
    forall k, k', a :: k in s.slices && k' in s.slices && a in s.slices[k] && a in s.slices[k'] ==> k == k'
  }

  /** While slice lists are pairwise disjoint, slice updates and removals are harmless; only a removal of a listed
      address can break the set view. */
  lemma DisjointIsHarmless(s: State, op: Op)
    requires DisjointSlices(s) && (op.Remove? ==> op.address !in AllListed(s))
    ensures Harmless(s, op)
  {
    match op
    case UpdateSlice(slice, scheme, path) =>
      forall a | a in Vanished(s, slice.Key(), Rendering.Derived(slice, scheme, path))
        ensures !ListedElsewhere(s, slice.Key(), a)
      {
        assert slice.Key() in s.slices && a in s.slices[slice.Key()];
      }
    case RemoveSlice(slice) =>
      forall a | a in Droppable(s, Listed(s, slice.Key()))
        ensures !ListedElsewhere(s, slice.Key(), a)
      {
        assert slice.Key() in s.slices && a in s.slices[slice.Key()];
      }
    case _ =>
  }

  /** Wherever the history stands, slice lists are pairwise disjoint and no listed address is removed. */
  predicate DisjointRun(s: State, ops: seq<Op>)
  {
    forall i :: 0 <= i < |ops| ==>
      DisjointSlices(Run(s, ops[..i])) && (ops[i].Remove? ==> ops[i].address !in AllListed(Run(s, ops[..i])))
  }

  /** Such a history stays in agreement. */
  lemma DisjointRunAgrees(s: State, ops: seq<Op>)
    requires Consistent(s) && Agrees(s) && DisjointRun(s, ops)
    ensures AlwaysAgrees(s, ops)
  {
    hide Agrees, Harmless, Consistent, DisjointSlices;
    DisjointIsHarmlessRun(s, ops);
    RunAgreesIff(s, ops);
  }

  lemma {:induction false} DisjointIsHarmlessRun(s: State, ops: seq<Op>)
    requires DisjointRun(s, ops)
    ensures HarmlessRun(s, ops)
  {
    hide Harmless, DisjointSlices, Run;
    if ops != [] {
      var n := |ops| - 1;
      assert forall i :: 0 <= i < n ==> ops[..n][..i] == ops[..i];
      DisjointIsHarmlessRun(s, ops[..n]);
      DisjointIsHarmless(Run(s, ops[..n]), ops[n]);
    }
  }

  /** Two slices that list the same dynamic address: removing one unregisters the address although the other still
      lists it.  Any consistent, agreeing state with such an overlap has this failing step. */
  lemma OverlapLosesTarget(s: State, slice: EndpointSlice, a: Str)
    requires Consistent(s) && Agrees(s)
    requires a in Listed(s, slice.Key()) && ListedElsewhere(s, slice.Key(), a) && !IsStatic(s, a)
    ensures !Agrees(After(s, RemoveSlice(slice))) && a in AllListed(After(s, RemoveSlice(slice)))
    ensures a !in After(s, RemoveSlice(slice)).targets
  {
    StepAgreesIff(s, RemoveSlice(slice));
    var k' :| k' in s.slices && k' != slice.Key() && a in s.slices[k'];
    assert a in After(s, RemoveSlice(slice)).slices[k'];
  }

  /** Two slices that derive the same address, seen one after the other. */
  function Overlapping(slice: EndpointSlice, other: EndpointSlice, scheme: Str, path: Str): seq<Op>
  {
    [UpdateSlice(slice, scheme, path), UpdateSlice(other, scheme, path)]
  }

  /** Such an overlap arises from the start: any two slices with different keys that derive a common address lead, by
      two ordinary updates, to an agreeing state from which the removal of one loses the address. */
  lemma OverlapFromStart(claims: Claim, slice: EndpointSlice, other: EndpointSlice, scheme: Str, path: Str, a: Str)
    requires slice.Key() != other.Key()
    requires a in Rendering.Derived(slice, scheme, path) && a in Rendering.Derived(other, scheme, path)
    ensures var s := Run(Init(claims), Overlapping(slice, other, scheme, path));
      && Consistent(s) && Agrees(s) && !DisjointSlices(s)
      && a in AllListed(After(s, RemoveSlice(slice))) && a !in After(s, RemoveSlice(slice)).targets
  {
    var init, t := Init(claims), After(Init(claims), UpdateSlice(slice, scheme, path));
    var s := After(t, UpdateSlice(other, scheme, path));
    RunOfTwo(init, UpdateSlice(slice, scheme, path), UpdateSlice(other, scheme, path));
    InitAgrees(claims);
    FirstUpdateDisjoint(claims, slice, scheme, path);
    UpdatedTwice(init, slice, other, scheme, path, a);
    hide After, Init, Run, Consistent, Agrees, DisjointSlices, Harmless, Listed, ListedElsewhere, IsStatic, AllListed,
      Rendering.Derived;
    DisjointStepAgrees(init, UpdateSlice(slice, scheme, path));
    DisjointStepAgrees(t, UpdateSlice(other, scheme, path));
    OverlapLosesTarget(s, slice, a);
  }

  lemma RunOfTwo(s: State, op: Op, next: Op)
    ensures Run(s, [op, next]) == After(After(s, op), next)
  {
    assert [op, next][..1] == [op] && [op][..0] == [];
    assert Run(s, [op]) == After(s, op);
  }

  lemma InitAgrees(claims: Claim)
    ensures Consistent(Init(claims)) && Agrees(Init(claims)) && DisjointSlices(Init(claims))
  {
  }

  lemma DisjointStepAgrees(s: State, op: Op)
    requires Consistent(s) && Agrees(s) && DisjointSlices(s) && op.UpdateSlice?
    ensures Consistent(After(s, op)) && Agrees(After(s, op))
  {
    hide Agrees, Harmless, Consistent, DisjointSlices, After;
    DisjointIsHarmless(s, op);
    StepAgreesIff(s, op);
    StepConsistent(s, op);
  }

  lemma FirstUpdateDisjoint(claims: Claim, slice: EndpointSlice, scheme: Str, path: Str)
    ensures DisjointSlices(After(Init(claims), UpdateSlice(slice, scheme, path)))
  {
  }

  lemma UpdatedTwice(s: State, slice: EndpointSlice, other: EndpointSlice, scheme: Str, path: Str, a: Str)
    requires s.targets == map[] && s.slices == map[] && slice.Key() != other.Key()
    requires a in Rendering.Derived(slice, scheme, path) && a in Rendering.Derived(other, scheme, path)
    ensures var t := After(After(s, UpdateSlice(slice, scheme, path)), UpdateSlice(other, scheme, path));
      && a in Listed(t, slice.Key()) && ListedElsewhere(t, slice.Key(), a) && !IsStatic(t, a) && !DisjointSlices(t)
  {
    var u := After(s, UpdateSlice(slice, scheme, path));
    assert !IsStatic(u, a);
    var t := After(u, UpdateSlice(other, scheme, path));
    assert other.Key() in t.slices && a in t.slices[other.Key()];
    assert slice.Key() in t.slices && a in t.slices[slice.Key()];
  }

  // ---------------------------------------------------------------- resync

  /** `op` re-lists a known slice with the addresses it is known to have. */
  predicate Relists(s: State, op: Op)
  {
    op.UpdateSlice? && op.slice.Key() in s.slices &&
    Rendering.Derived(op.slice, op.scheme, op.path) == s.slices[op.slice.Key()]
  }

  function RelistedKeys(ops: seq<Op>): set<Str>
  {
    set op | op in ops && op.UpdateSlice? :: op.slice.Key()
  }

  /** The addresses of the re-listed slices. */
  function Restored(s: State, ops: seq<Op>): set<Str>
  {
    set k, a | k in RelistedKeys(ops) && k in s.slices && a in s.slices[k] :: a
  }

  /** What happens during a resync: known slices are re-listed, and as both handlers hang on one informer, peer
      updates come in between. */
  predicate Delivery(s: State, op: Op)
  {
    Relists(s, op) || op.UpdatePeers?
  }

  predicate Deliveries(s: State, ops: seq<Op>)
  {
    forall op :: op in ops ==> Delivery(s, op)
  }

  /** A resync: every known slice is re-listed, in any order, amid any peer updates. */
  predicate Resync(s: State, ops: seq<Op>)
  {
    Deliveries(s, ops) && RelistedKeys(ops) == s.slices.Keys
  }

  predicate NoPeers(ops: seq<Op>)
  {
    forall op :: op in ops ==> !op.UpdatePeers?
  }

  /** `t` is `s` with nothing lost: same slices and statics, no record changed. */
  predicate Keeps(s: State, t: State)
  {
    t.slices == s.slices && Statics(t) == Statics(s) &&
    forall a :: a in s.targets ==> a in t.targets && t.targets[a] == s.targets[a]
  }

  /** Moreover the peers are the same and no target was stopped. */
  predicate Extends(s: State, t: State)
  {
    Keeps(s, t) && t.peers == s.peers && ActiveSet(s) <= ActiveSet(t)
  }

  /** The addresses an operation re-lists. */
  function Relisted(s: State, op: Op): set<Str>
  {
    if op.UpdateSlice? && op.slice.Key() in s.slices then Members(s.slices[op.slice.Key()]) else {}
  }

  lemma RelistList(s: State, k: Str, scheme: Str)
    requires Consistent(s) && k in s.slices
    ensures var t := AfterUpdateSlice(s, k, scheme, s.slices[k]);
      Extends(s, t) && t.targets.Keys == s.targets.Keys + Members(s.slices[k])
  {
    var t := AfterUpdateSlice(s, k, scheme, s.slices[k]);
    assert Vanished(s, k, s.slices[k]) == {};
    assert t.slices == s.slices;
    assert Statics(t) == Statics(s);
  }

  lemma RelistStep(s: State, op: Op)
    requires Consistent(s) && Relists(s, op)
    ensures Extends(s, After(s, op)) && Stopped(s, op) == {}
    ensures After(s, op).targets.Keys == s.targets.Keys + Relisted(s, op)
  {
    RelistList(s, op.slice.Key(), op.scheme);
  }

  lemma PeersStep(s: State, op: Op)
    requires op.UpdatePeers?
    ensures Keeps(s, After(s, op)) && After(s, op).targets.Keys == s.targets.Keys + Relisted(s, op)
  {
    assert Statics(After(s, op)) == Statics(s);
  }

  lemma DeliveryFurther(s: State, t: State, op: Op)
    requires Keeps(s, t) && Consistent(t) && Delivery(s, op)
    ensures Keeps(s, After(t, op)) && After(t, op).targets.Keys == t.targets.Keys + Relisted(s, op)
    ensures op.UpdateSlice? ==> Stopped(t, op) == {} && (Extends(s, t) ==> Extends(s, After(t, op)))
  {
    hide Consistent, Stopped, After, ActiveSet, Statics;
    if op.UpdatePeers? {
      PeersStep(t, op);
    } else {
      assert Relists(t, op);
      RelistStep(t, op);
    }
  }

  /** Re-listing known slices, in any order, any number of times and amid any peer updates, deletes nothing and
      registers the addresses of every slice it touches; left to itself it stops no scheduler either. */
  lemma {:induction false} RelistRun(s: State, ops: seq<Op>)
    requires Consistent(s) && Deliveries(s, ops)
    ensures Keeps(s, Run(s, ops)) && Run(s, ops).targets.Keys == s.targets.Keys + Restored(s, ops)
    ensures NoPeers(ops) ==> Extends(s, Run(s, ops))
  {
    hide Extends, Keeps, Delivery, Consistent, Restored, Relisted, After;
    if ops == [] {
      RelistNone(s);
    } else {
      var n := |ops| - 1;
      var front, last := ops[..n], ops[n];
      RelistRun(s, front);
      RunConsistent(s, front);
      assert last in ops;
      DeliveryFurther(s, Run(s, front), last);
      DeliveryKind(s, last);
      RestoredMore(s, front, last);
      assert ops == front + [last];
    }
  }

  lemma DeliveryKind(s: State, op: Op)
    requires Delivery(s, op)
    ensures op.UpdateSlice? || op.UpdatePeers?
  {
  }

  lemma RelistNone(s: State)
    ensures Extends(s, s) && Keeps(s, s) && Restored(s, []) == {}
  {
  }

  lemma RestoredMore(s: State, front: seq<Op>, last: Op)
    requires Delivery(s, last)
    ensures Restored(s, front + [last]) == Restored(s, front) + Relisted(s, last)
  {
    assert RelistedKeys(front + [last]) == RelistedKeys(front) + if last.UpdateSlice? then {last.slice.Key()} else {};
  }

  /** No re-listing along the way stops a scheduler. */
  lemma RelistIsGentle(s: State, ops: seq<Op>, i: nat)
    requires Consistent(s) && i < |ops| && Deliveries(s, ops) && ops[i].UpdateSlice?
    ensures Stopped(Run(s, ops[..i]), ops[i]) == {}
  {
    RelistRun(s, ops[..i]);
    RunConsistent(s, ops[..i]);
    DeliveryFurther(s, Run(s, ops[..i]), ops[i]);
  }

  /** After any history, overlaps and removals of listed addresses included, re-listing every known slice amid any peer
      updates deletes nothing and ends in agreement with the set view. */
  lemma ResyncConverges(s: State, ops: seq<Op>)
    requires Consistent(s) && Resync(s, ops)
    ensures Keeps(s, Run(s, ops)) && Agrees(Run(s, ops)) && (NoPeers(ops) ==> Extends(s, Run(s, ops)))
    ensures Run(s, ops).targets.Keys == Statics(s) + AllListed(s)
  {
    RelistRun(s, ops);
    hide Extends;
    assert Restored(s, ops) == AllListed(s);
    forall a | a in s.targets
      ensures a in Statics(s) + AllListed(s)
    {
      Covered(s, a);
    }
    assert AllListed(Run(s, ops)) == AllListed(s);
  }

  /** Some operation installs a peer list. */
  predicate UpdatesPeers(ops: seq<Op>)
  {
    exists op :: op in ops && op.UpdatePeers?
  }

  /** When all peer lists installed name the same pods, these are the ones known afterwards. */
  lemma {:induction false} PeersInstalled(s: State, ops: seq<Op>, pods: set<Str>)
    requires forall op :: op in ops && op.UpdatePeers? ==> Members(op.peers) == pods
    requires Members(s.peers) == pods || UpdatesPeers(ops)
    ensures Members(Run(s, ops).peers) == pods
  {
    if ops != [] {
      var n := |ops| - 1;
      var front, last := ops[..n], ops[n];
      assert ops == front + [last];
      assert last in ops;
      if !last.UpdatePeers? {
        PeersInstalled(s, front, pods);
      }
    }
  }
}

/** Laws of the registry over all states and all histories, for any sharding rule. */
module RegistryLaws {
  import opened Bytes
  import opened Targets
  import Rendering
  import opened RegistryState

  /** The state after a whole history. */
  function Run(s: State, ops: seq<Op>): State
  {
    if ops == [] then s else After(Run(s, ops[..|ops| - 1]), ops[|ops| - 1])
  }

  lemma {:induction false} RunAppend(s: State, ops: seq<Op>, more: seq<Op>)
    ensures Run(s, ops + more) == Run(Run(s, ops), more)
  {
    if more == [] {
      assert ops + more == ops;
    } else {
      assert (ops + more)[..|ops + more| - 1] == ops + more[..|more| - 1];
      RunAppend(s, ops, more[..|more| - 1]);
    }
  }

  // ---------------------------------------------------------------- consistency

  lemma InitConsistent(claims: Claim)
    ensures Consistent(Init(claims)) && ActiveSet(Init(claims)) == {}
  {
  }

  lemma UpdateSliceTracks(s: State, k: Str, scheme: Str, list: seq<Str>)
    requires Consistent(s)
    ensures var t := AfterUpdateSlice(s, k, scheme, list);
      && t.active.Keys <= t.targets.Keys
      && (forall a :: a in t.targets ==> t.targets[a].address == a)
      && (forall a :: a in t.targets ==> (a in ActiveSet(t) <==> Mine(t, a)))
  {
  }

  lemma UpdateSliceBacked(s: State, k: Str, scheme: Str, list: seq<Str>, a: Str)
    requires Consistent(s)
    ensures var t := AfterUpdateSlice(s, k, scheme, list);
      a in t.targets && !t.targets[a].isStatic ==> Backed(t, a)
  {
    assert a in s.targets && !s.targets[a].isStatic ==> Backed(s, a);
  }

  lemma RemoveSliceBacked(s: State, k: Str, a: Str)
    requires Consistent(s)
    ensures var t := AfterRemoveSlice(s, k);
      a in t.targets && !t.targets[a].isStatic ==> Backed(t, a)
  {
    assert a in s.targets && !s.targets[a].isStatic ==> Backed(s, a);
  }

  lemma OtherOpConsistent(s: State, op: Op)
    requires Consistent(s) && !op.UpdateSlice? && !op.RemoveSlice?
    ensures Consistent(After(s, op))
  {
    forall a | a in After(s, op).targets && !After(s, op).targets[a].isStatic
      ensures Backed(After(s, op), a)
    {
      assert a in s.targets && Backed(s, a);
    }
  }

  /** Every operation keeps the registry consistent. */
  lemma StepConsistent(s: State, op: Op)
    requires Consistent(s)
    ensures Consistent(After(s, op))
  {
    var t := After(s, op);
    match op
    case UpdateSlice(slice, scheme, path) =>
      var list := Rendering.Derived(slice, scheme, path);
      UpdateSliceTracks(s, slice.Key(), scheme, list);
      forall a | a in t.targets && !t.targets[a].isStatic
        ensures Backed(t, a)
      {
        UpdateSliceBacked(s, slice.Key(), scheme, list, a);
      }
    case RemoveSlice(slice) =>
      forall a | a in t.targets && !t.targets[a].isStatic
        ensures Backed(t, a)
      {
        RemoveSliceBacked(s, slice.Key(), a);
      }
    case UpdatePeers(_) => OtherOpConsistent(s, op);
    case Add(_) => OtherOpConsistent(s, op);
    case Remove(_) => OtherOpConsistent(s, op);
  }

  /** Consistency holds after every history. */
  lemma {:induction false} RunConsistent(s: State, ops: seq<Op>)
    requires Consistent(s)
    ensures Consistent(Run(s, ops)) && Run(s, ops).claims == s.claims
  {
    if ops != [] {
      RunConsistent(s, ops[..|ops| - 1]);
      StepConsistent(Run(s, ops[..|ops| - 1]), ops[|ops| - 1]);
    }
  }

  // ---------------------------------------------------------------- static precedence

  /** Removal of its own address is the one operation that touches a static target. */
  lemma StepKeepsStatic(s: State, op: Op, a: Str)
    requires IsStatic(s, a)
    ensures a in After(s, op).targets && After(s, op).targets[a] == s.targets[a] <==> op != Remove(a)
  {
  }

  /** Once an address is static, no history without a removal of it deletes it, makes it dynamic or changes
      its record. */
  lemma {:induction false} StaticPrecedence(s: State, ops: seq<Op>, a: Str)
    requires IsStatic(s, a) && Remove(a) !in ops
    ensures a in Run(s, ops).targets && Run(s, ops).targets[a] == s.targets[a]
  {
    if ops != [] {
      StaticPrecedence(s, ops[..|ops| - 1], a);
      StepKeepsStatic(Run(s, ops[..|ops| - 1]), ops[|ops| - 1], a);
    }
  }

  // ---------------------------------------------------------------- idempotence

  /** A slice update that drops nothing and finds every address registered only records the list. */
  lemma SettledUpdate(s: State, k: Str, scheme: Str, list: seq<Str>)
    requires Vanished(s, k, list) == {} && forall a :: a in list ==> a in s.targets
    ensures AfterUpdateSlice(s, k, scheme, list) == s.(slices := s.slices[k := list])
  {
    var t := AfterUpdateSlice(s, k, scheme, list);
    assert t.targets == s.targets;
    assert t.active == s.active;
  }

  lemma RepeatUpdateSlice(s: State, k: Str, scheme: Str, list: seq<Str>)
    ensures var t := AfterUpdateSlice(s, k, scheme, list); AfterUpdateSlice(t, k, scheme, list) == t
  {
    var t := AfterUpdateSlice(s, k, scheme, list);
    assert Vanished(t, k, list) == {};
    SettledUpdate(t, k, scheme, list);
    assert t.slices[k := list] == t.slices;
  }

  /** Repeating an operation at once changes nothing. */
  lemma RepeatKeepsState(s: State, op: Op)
    ensures After(After(s, op), op) == After(s, op)
  {
    var t := After(s, op);
    match op
    case UpdatePeers(peers) => assert Rebalanced(t, peers) == t.active;
    case UpdateSlice(slice, scheme, path) =>
      RepeatUpdateSlice(s, slice.Key(), scheme, Rendering.Derived(slice, scheme, path));
    case RemoveSlice(slice) =>
      assert AfterRemoveSlice(t, slice.Key()).targets == t.targets;
      assert AfterRemoveSlice(t, slice.Key()).active == t.active;
      assert AfterRemoveSlice(t, slice.Key()).slices == t.slices;
    case Add(_) =>
    case Remove(_) =>
  }

  /** Repeating an operation at once emits nothing, even when a slice lists an address twice. */
  lemma RepeatIsSilent(s: State, op: Op, evs: seq<TargetEvent>)
    ensures Announces(After(s, op), op, evs) <==> evs == []
  {
    var t := After(s, op);
    RepeatKeepsState(s, op);
    assert !Upgrades(t, op);
    assert Stopped(t, op) == {} && Started(t, op) == {};
    if evs != [] {
      assert evs[0].target.address in Addresses(evs, evs[0].isAdded);
    }
  }

  /** The events of an operation are determined up to order: two outcomes hold the same events. */
  lemma EventsUpToOrder(s: State, op: Op, evs: seq<TargetEvent>, other: seq<TargetEvent>)
    requires Announces(s, op, evs) && Announces(s, op, other)
    ensures (set e | e in evs) == (set e | e in other) && |evs| == |other|
  {
    SameEvents(s, op, evs, other);
    SameEvents(s, op, other, evs);
    Cardinality(evs);
    Cardinality(other);
  }

  lemma SameEvents(s: State, op: Op, evs: seq<TargetEvent>, other: seq<TargetEvent>)
    requires Announces(s, op, evs) && Announces(s, op, other)
    ensures (set e | e in evs) <= (set e | e in other)
  {
    forall e | e in evs
      ensures e in other
    {
      assert e.target.address in Addresses(evs, e.isAdded);
      assert e.target.address in Addresses(other, e.isAdded);
      var f :| f in other && f.isAdded == e.isAdded && f.target.address == e.target.address;
    }
  }

  lemma {:induction false} Cardinality(evs: seq<TargetEvent>)
    requires Distinct(evs)
    ensures |set e | e in evs| == |evs|
  {
    if evs != [] {
      var n := |evs| - 1;
      Cardinality(evs[..n]);
      assert evs[n] !in evs[..n];
      assert (set e | e in evs) == (set e | e in evs[..n]) + {evs[n]};
    }
  }

  // ---------------------------------------------------------------- the events of Add and Remove

  /** One event, or none, announces a change of one address. */
  lemma SingleEvent(s: State, op: Op, evs: seq<TargetEvent>)
    requires evs == [] ==> Stopped(s, op) == {} && Started(s, op) == {}
    requires evs != [] ==> |evs| == 1 && evs[0].target == Payload(s, op, evs[0].target.address, evs[0].isAdded)
    requires evs != [] && evs[0].isAdded ==> Stopped(s, op) == {} && Started(s, op) == {evs[0].target.address}
    requires evs != [] && !evs[0].isAdded ==> Stopped(s, op) == {evs[0].target.address} && Started(s, op) == {}
    ensures Announces(s, op, evs)
  {
    if evs != [] {
      assert evs == [evs[0]];
      assert Addresses(evs, evs[0].isAdded) == {evs[0].target.address} && Addresses(evs, !evs[0].isAdded) == {};
    }
  }

  lemma AddDone(s: State, target: Target, evs: seq<TargetEvent>)
    requires Consistent(s)
    requires evs == if IsStatic(s, target.address) || !Mine(s, target.address) then []
      else [TargetEvent(target.(isStatic := true), true)]
    ensures Announces(s, Op.Add(target), evs)
  {
    var op := Op.Add(target);
    assert Stopped(s, op) == {};
    assert Started(s, op) == if evs == [] then {} else {target.address};
    SingleEvent(s, op, evs);
  }

  lemma RemoveDone(s: State, address: Str, evs: seq<TargetEvent>)
    requires Consistent(s)
    requires evs == if address in ActiveSet(s) then [TargetEvent(s.targets[address], false)] else []
    ensures Announces(s, Op.Remove(address), evs)
  {
    var op := Op.Remove(address);
    assert Stopped(s, op) == if evs == [] then {} else {address};
    assert Started(s, op) == {};
    SingleEvent(s, op, evs);
  }
}

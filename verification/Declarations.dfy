/** What becomes of each single address, and how the static targets follow from the definitions alone: a replica
    registers every static target, whether it owns it or not, so that it can take over later. */
module Declarations {
  import opened Bytes
  import opened Targets
  import Rendering
  import opened RegistryState
  import opened RegistryLaws
  import opened Reconciliation

  /** The record registered for an address, if any. */
  function Registered(s: State, a: Str): Option<Target>
  {
    if a in s.targets then Some(s.targets[a]) else None
  }

  /** What each operation does to the record of one address, in no case depending on who owns it: a slice update drops a
      dynamic address it lists no more and registers a new one with the slice's name and scheme, and with certificate
      checks on; a removed slice drops the dynamic addresses it listed; an addition makes the address static unless it
      is already; only a removal of the address touches a static one. */
  lemma TargetAfter(s: State, op: Op, a: Str)
    ensures Registered(After(s, op), a) ==
      match op
      case UpdatePeers(_) => Registered(s, a)
      case UpdateSlice(slice, scheme, path) =>
        if IsStatic(s, a) then Registered(s, a)
        else if a in Rendering.Derived(slice, scheme, path) then
          if a in s.targets then Registered(s, a) else Some(Target(slice.Key(), a, scheme, false, false))
        else if a in Listed(s, slice.Key()) then None
        else Registered(s, a)
      case RemoveSlice(slice) =>
        if a in Listed(s, slice.Key()) && !IsStatic(s, a) then None else Registered(s, a)
      case Add(t) => if t.address == a && !IsStatic(s, a) then Some(t.(isStatic := true)) else Registered(s, a)
      case Remove(b) => if b == a then None else Registered(s, a)
  {
    hide Rendering.Derived;
  }

  // ---------------------------------------------------------------- static targets

  /** The static targets a sequence of definitions leaves: the first addition of an address counts until its removal. */
  function Declared(ops: seq<Op>): map<Str, Target>
  {
    if ops == [] then map[] else Declare(Declared(ops[..|ops| - 1]), ops[|ops| - 1])
  }

  function Declare(m: map<Str, Target>, op: Op): map<Str, Target>
  {
    match op
    case Add(t) => if t.address in m then m else m[t.address := t.(isStatic := true)]
    case Remove(a) => m - {a}
    case _ => m
  }

  function StaticRecords(s: State): map<Str, Target>
  {
    map a | a in s.targets && s.targets[a].isStatic :: s.targets[a]
  }

  lemma StaticsStep(s: State, op: Op)
    ensures StaticRecords(After(s, op)) == Declare(StaticRecords(s), op)
  {
    hide After;
    var t := After(s, op);
    forall a
      ensures a in StaticRecords(t) <==> a in Declare(StaticRecords(s), op)
      ensures a in StaticRecords(t) ==> StaticRecords(t)[a] == Declare(StaticRecords(s), op)[a]
    {
      TargetAfter(s, op, a);
      assert a in t.targets <==> Registered(t, a).Some?;
    }
  }

  /** Through any history, on any replica, the static targets and their records are those the definitions declare:
      slices, peers and ownership have no part in it. */
  lemma {:induction false} StaticsAreDeclared(claims: Claim, ops: seq<Op>)
    ensures StaticRecords(Run(Init(claims), ops)) == Declared(ops)
    ensures Statics(Run(Init(claims), ops)) == Declared(ops).Keys
  {
    var t := Run(Init(claims), ops);
    assert Statics(t) == StaticRecords(t).Keys;
    if ops != [] {
      hide After;
      StaticsAreDeclared(claims, ops[..|ops| - 1]);
      StaticsStep(Run(Init(claims), ops[..|ops| - 1]), ops[|ops| - 1]);
    }
  }

  /** The `i`-th operation adds `a`, and `a` is not removed after it. */
  predicate AddsForGood(ops: seq<Op>, i: nat, a: Str)
  {
    i < |ops| && ops[i].Add? && ops[i].target.address == a && Remove(a) !in ops[i + 1..]
  }

  lemma AddsMore(ops: seq<Op>, i: nat, a: Str)
    requires ops != []
    ensures var n := |ops| - 1;
      AddsForGood(ops, i, a) <==>
        (AddsForGood(ops[..n], i, a) && ops[n] != Remove(a)) || (i == n && ops[n].Add? && ops[n].target.address == a)
  {
    var n := |ops| - 1;
    if i < n {
      assert ops[i + 1..] == ops[..n][i + 1..] + [ops[n]];
    }
  }

  /** The last operation adds `a`. */
  predicate AddsLast(ops: seq<Op>, a: Str)
    requires ops != []
  {
    ops[|ops| - 1].Add? && ops[|ops| - 1].target.address == a
  }

  lemma DeclaredStep(ops: seq<Op>, a: Str)
    requires ops != []
    ensures var front, last := Declared(ops[..|ops| - 1]), ops[|ops| - 1];
      && (a in Declared(ops) <==> (a in front && last != Remove(a)) || AddsLast(ops, a))
      && (a in Declared(ops) ==> Declared(ops)[a] == if a in front then front[a] else last.target.(isStatic := true))
  {
  }

  /** An address is declared exactly when some addition of it stands. */
  lemma {:induction false} DeclaredIff(ops: seq<Op>, a: Str)
    ensures a in Declared(ops) <==> exists i: nat :: AddsForGood(ops, i, a)
  {
    if ops != [] {
      var n := |ops| - 1;
      DeclaredIff(ops[..n], a);
      DeclaredStep(ops, a);
      forall i: nat
        ensures AddsForGood(ops, i, a) <==>
          (AddsForGood(ops[..n], i, a) && ops[n] != Remove(a)) || (i == n && AddsLast(ops, a))
      {
        AddsMore(ops, i, a);
      }
      hide AddsForGood, Declared, AddsLast;
      if a in Declared(ops[..n]) && ops[n] != Remove(a) {
        var i: nat :| AddsForGood(ops[..n], i, a);
        assert AddsForGood(ops, i, a);
      }
      if AddsLast(ops, a) {
        assert AddsForGood(ops, n, a);
      }
    }
  }

  /** Its record is that of the first addition that stands. */
  lemma {:induction false} DeclaredRecord(ops: seq<Op>, i: nat, a: Str)
    requires AddsForGood(ops, i, a) && forall j: nat :: j < i ==> !AddsForGood(ops, j, a)
    ensures a in Declared(ops) && Declared(ops)[a] == ops[i].target.(isStatic := true)
  {
    var n := |ops| - 1;
    DeclaredStep(ops, a);
    DeclaredIff(ops[..n], a);
    forall j: nat
      ensures AddsForGood(ops, j, a) <==>
        (AddsForGood(ops[..n], j, a) && ops[n] != Remove(a)) || (j == n && AddsLast(ops, a))
    {
      AddsMore(ops, j, a);
    }
    if i < n {
      DeclaredRecord(ops[..n], i, a);
    } else {
      hide Declared;
      forall j: nat
        ensures !AddsForGood(ops[..n], j, a)
      {
        assert j < n ==> !AddsForGood(ops, j, a);
      }
    }
  }

  /** A target is static exactly when some addition of it has not been followed by its removal, on every replica
      alike. */
  lemma StaticIff(claims: Claim, ops: seq<Op>, a: Str)
    ensures IsStatic(Run(Init(claims), ops), a) <==> exists i: nat :: AddsForGood(ops, i, a)
  {
    StaticsAreDeclared(claims, ops);
    DeclaredIff(ops, a);
  }

  /** The record stored is that of the first addition since the last removal. */
  lemma StaticRecord(claims: Claim, ops: seq<Op>, i: nat, a: Str)
    requires AddsForGood(ops, i, a) && forall j: nat :: j < i ==> !AddsForGood(ops, j, a)
    ensures Registered(Run(Init(claims), ops), a) == Some(ops[i].target.(isStatic := true))
  {
    StaticsAreDeclared(claims, ops);
    DeclaredRecord(ops, i, a);
    assert a in StaticRecords(Run(Init(claims), ops));
  }

  /** The definitions in a history. */
  function Definitions(ops: seq<Op>): seq<Op>
  {
    if ops == [] then []
    else
      var front, last := Definitions(ops[..|ops| - 1]), ops[|ops| - 1];
      if last.Add? || last.Remove? then front + [last] else front
  }

  lemma {:induction false} OnlyDefinitionsCount(ops: seq<Op>)
    ensures Declared(Definitions(ops)) == Declared(ops)
  {
    if ops != [] {
      var front, last := Definitions(ops[..|ops| - 1]), ops[|ops| - 1];
      OnlyDefinitionsCount(ops[..|ops| - 1]);
      assert (front + [last])[..|front|] == front;
    }
  }

  /** Replicas that received the same definitions in the same order hold the same static targets, whatever else each
      went through. */
  lemma SameDefinitionsSameStatics(claims: Claim, ops: seq<Op>, other: Claim, others: seq<Op>)
    requires Definitions(ops) == Definitions(others)
    ensures StaticRecords(Run(Init(claims), ops)) == StaticRecords(Run(Init(other), others))
    ensures Statics(Run(Init(claims), ops)) == Statics(Run(Init(other), others))
  {
    StaticsAreDeclared(claims, ops);
    StaticsAreDeclared(other, others);
    OnlyDefinitionsCount(ops);
    OnlyDefinitionsCount(others);
  }
}

/** What a stream of events amounts to, and how far its order matters: the registry emits its events after its mutex is
    released (pkg/prober/registry.go, lines 107-109), so those of concurrent operations mix in the channel. */
module EventOrder {
  import opened Bytes
  import opened Targets
  import opened RegistryState
  import opened RegistryLaws

  /** The set of addresses with a scheduler once `evs` have been handled in order. */
  function Replay(live: set<Str>, evs: seq<TargetEvent>): set<Str>
    decreases |evs|
  {
    if evs == [] then live
    else
      var a := evs[0].target.address;
      Replay(if evs[0].isAdded then live + {a} else live - {a}, evs[1..])
  }

  lemma {:induction false} ReplayAppend(live: set<Str>, evs: seq<TargetEvent>, more: seq<TargetEvent>)
    ensures Replay(live, evs + more) == Replay(Replay(live, evs), more)
    decreases |evs|
  {
    if evs == [] {
      assert evs + more == more;
    } else {
      assert (evs + more)[1..] == evs[1..] + more;
      var a := evs[0].target.address;
      ReplayAppend(if evs[0].isAdded then live + {a} else live - {a}, evs[1..], more);
    }
  }

  /** Replay is monotone and adds no difference of its own. */
  lemma {:induction false} ReplayMonotone(live: set<Str>, more: set<Str>, evs: seq<TargetEvent>)
    requires live <= more
    ensures Replay(live, evs) <= Replay(more, evs) && Replay(more, evs) - Replay(live, evs) <= more - live
    decreases |evs|
  {
    if evs != [] {
      var a := evs[0].target.address;
      if evs[0].isAdded {
        ReplayMonotone(live + {a}, more + {a}, evs[1..]);
      } else {
        ReplayMonotone(live - {a}, more - {a}, evs[1..]);
      }
    }
  }

  /** Skipping one addition can only lose that address. */
  lemma ReplaySkip(live: set<Str>, front: seq<TargetEvent>, e: TargetEvent, back: seq<TargetEvent>)
    requires e.isAdded
    ensures Replay(live, front + back) <= Replay(live, front + [e] + back)
    ensures Replay(live, front + [e] + back) - Replay(live, front + back) <= {e.target.address}
  {
    var mid := Replay(live, front);
    ReplayAppend(live, front, back);
    ReplayAppend(live, front + [e], back);
    ReplayAppend(live, front, [e]);
    assert Replay(mid, [e]) == Replay(mid + {e.target.address}, []);
    ReplayMonotone(mid, mid + {e.target.address}, back);
  }

  /** No address is both added and removed. */
  predicate OneKind(evs: seq<TargetEvent>)
  {
    Addresses(evs, false) !! Addresses(evs, true)
  }

  /** Then order does not matter, nor does repetition. */
  lemma {:induction false} ReplayOneKind(live: set<Str>, evs: seq<TargetEvent>)
    requires OneKind(evs)
    ensures Replay(live, evs) == live - Addresses(evs, false) + Addresses(evs, true)
    decreases |evs|
  {
    if evs != [] {
      var rest, a, b := evs[1..], evs[0].target.address, evs[0].isAdded;
      assert evs == [evs[0]] + rest;
      assert Addresses(evs, b) == Addresses(rest, b) + {a};
      assert Addresses(evs, !b) == Addresses(rest, !b);
      ReplayOneKind(if b then live + {a} else live - {a}, rest);
    }
  }

  lemma ReplayDistinct(live: set<Str>, evs: seq<TargetEvent>)
    requires Distinct(evs)
    ensures OneKind(evs) && Replay(live, evs) == live - Addresses(evs, false) + Addresses(evs, true)
  {
    ReplayOneKind(live, evs);
  }

  lemma DistinctTail(evs: seq<TargetEvent>)
    requires evs != [] && Distinct(evs)
    ensures Distinct(evs[1..]) && Addresses(evs[1..], true) <= Addresses(evs, true)
    ensures evs[0].target.address !in Addresses(evs[1..], true) && evs[0].target.address !in Addresses(evs[1..], false)
  {
    assert forall i :: 0 <= i < |evs| - 1 ==> evs[1..][i] == evs[i + 1];
  }

  /** Handling an operation's events turns the old active set into the new one. */
  lemma ReplayAnnounced(s: State, op: Op, evs: seq<TargetEvent>)
    requires Consistent(s) && Announces(s, op, evs)
    ensures Replay(ActiveSet(s), evs) == ActiveSet(After(s, op))
  {
    ReplayDistinct(ActiveSet(s), evs);
    assert Upgrades(s, op) ==> op.target.address in ActiveSet(After(s, op)) by {
      StepConsistent(s, op);
    }
  }

  // ---------------------------------------------------------------- concurrent emission

  /** The batches of events of a history, one batch for each operation. */
  predicate Batches(s: State, ops: seq<Op>, batches: seq<seq<TargetEvent>>)
  {
    |batches| == |ops| && forall i :: 0 <= i < |ops| ==> Announces(Run(s, ops[..i]), ops[i], batches[i])
  }

  /** `m` takes the first event of some batch, then of some batch again, until none is left: what a channel receives
      from one goroutine per batch. */
  ghost predicate Merges(m: seq<TargetEvent>, batches: seq<seq<TargetEvent>>)
    decreases |m|
  {
    if m == [] then forall i :: 0 <= i < |batches| ==> batches[i] == []
    else exists i :: 0 <= i < |batches| && TakesFrom(m, batches, i) && Merges(m[1..], batches[i := batches[i][1..]])
  }

  predicate TakesFrom(m: seq<TargetEvent>, batches: seq<seq<TargetEvent>>, i: nat)
    requires i < |batches|
  {
    m != [] && batches[i] != [] && batches[i][0] == m[0]
  }

  function AllAddresses(batches: seq<seq<TargetEvent>>, isAdded: bool): set<Str>
  {
    set i, a | 0 <= i < |batches| && a in Addresses(batches[i], isAdded) :: a
  }

  lemma TakenAddresses(batches: seq<seq<TargetEvent>>, i: nat, b: bool)
    requires i < |batches| && batches[i] != []
    ensures AllAddresses(batches, b) == Addresses([batches[i][0]], b) + AllAddresses(batches[i := batches[i][1..]], b)
  {
    var rest, first := batches[i := batches[i][1..]], Addresses([batches[i][0]], b);
    assert batches[i] == [batches[i][0]] + rest[i];
    assert Addresses(batches[i], b) == first + Addresses(rest[i], b);
    forall a
      ensures a in AllAddresses(batches, b) <==> a in first + AllAddresses(rest, b)
    {
      assert forall j :: 0 <= j < |batches| && j != i ==> rest[j] == batches[j];
      if a in AllAddresses(batches, b) {
        var j :| 0 <= j < |batches| && a in Addresses(batches[j], b);
        assert j != i ==> a in Addresses(rest[j], b);
      }
      if a in AllAddresses(rest, b) {
        var j :| 0 <= j < |rest| && a in Addresses(rest[j], b);
        assert a in Addresses(batches[j], b);
      }
    }
  }

  /** Merging neither loses nor invents events. */
  lemma {:induction false} MergedAddresses(m: seq<TargetEvent>, batches: seq<seq<TargetEvent>>, b: bool)
    requires Merges(m, batches)
    ensures Addresses(m, b) == AllAddresses(batches, b)
    decreases |m|
  {
    if m != [] {
      var i :| 0 <= i < |batches| && TakesFrom(m, batches, i) && Merges(m[1..], batches[i := batches[i][1..]]);
      MergedAddresses(m[1..], batches[i := batches[i][1..]], b);
      TakenAddresses(batches, i, b);
      assert m == [m[0]] + m[1..];
      assert Addresses(m, b) == Addresses([m[0]], b) + Addresses(m[1..], b);
    }
  }

  /** One batch may be emitted as a whole before anything else. */
  lemma {:induction false} DrainFirst(batches: seq<seq<TargetEvent>>, i: nat, m: seq<TargetEvent>)
    requires i < |batches| && Merges(m, batches[i := []])
    ensures Merges(batches[i] + m, batches)
    decreases |batches[i]|
  {
    if batches[i] == [] {
      assert batches[i := []] == batches && batches[i] + m == m;
    } else {
      var rest := batches[i := batches[i][1..]];
      assert rest[i := []] == batches[i := []];
      DrainFirst(rest, i, m);
      assert (batches[i] + m)[1..] == rest[i] + m;
      assert TakesFrom(batches[i] + m, batches, i);
    }
  }

  /** Any batch may be the last one to be emitted. */
  lemma {:induction false} DrainLast(batches: seq<seq<TargetEvent>>, k: nat, n: nat) returns (early: seq<TargetEvent>)
    requires k < |batches| && n <= |batches| && forall i :: n <= i < |batches| && i != k ==> batches[i] == []
    ensures Merges(early + batches[k], batches)
    decreases n
  {
    if n == 0 {
      early := [];
      DrainFirst(batches, k, []);
      assert [] + batches[k] == batches[k] + [];
    } else if n - 1 == k {
      early := DrainLast(batches, k, n - 1);
    } else {
      var rest := batches[n - 1 := []];
      var middle := DrainLast(rest, k, n - 1);
      DrainFirst(batches, n - 1, middle + batches[k]);
      early := batches[n - 1] + middle;
      assert batches[n - 1] + (middle + batches[k]) == early + batches[k];
    }
  }

  /** What the batches announce is what the history does, if no address is announced both ways. */
  lemma {:induction false} HistoryAnnounced(s: State, ops: seq<Op>, batches: seq<seq<TargetEvent>>)
    requires Consistent(s) && Batches(s, ops, batches) && AllAddresses(batches, false) !! AllAddresses(batches, true)
    ensures ActiveSet(Run(s, ops)) == ActiveSet(s) - AllAddresses(batches, false) + AllAddresses(batches, true)
  {
    if ops == [] {
      assert AllAddresses(batches, false) == {} && AllAddresses(batches, true) == {};
    } else {
      var n := |ops| - 1;
      BatchesFront(s, ops, batches);
      AllButLast(batches, false);
      AllButLast(batches, true);
      hide Announces, Started, Stopped, Consistent, After, Addresses, AllAddresses;
      HistoryAnnounced(s, ops[..n], batches[..n]);
      AnnouncedChange(s, ops[..n], ops[n], batches[n]);
    }
  }

  lemma BatchesFront(s: State, ops: seq<Op>, batches: seq<seq<TargetEvent>>)
    requires Batches(s, ops, batches) && ops != []
    ensures var n := |ops| - 1; Batches(s, ops[..n], batches[..n]) && Announces(Run(s, ops[..n]), ops[n], batches[n])
  {
    hide Announces, Run;
    var n := |ops| - 1;
    assert forall i :: 0 <= i < n ==> ops[..n][..i] == ops[..i];
  }

  lemma AnnouncedChange(s: State, front: seq<Op>, op: Op, evs: seq<TargetEvent>)
    requires Consistent(s) && Announces(Run(s, front), op, evs)
    ensures ActiveSet(After(Run(s, front), op)) ==
      ActiveSet(Run(s, front)) - Addresses(evs, false) + Addresses(evs, true)
  {
    RunConsistent(s, front);
    ReplayDistinct(ActiveSet(Run(s, front)), evs);
    ReplayAnnounced(Run(s, front), op, evs);
  }

  lemma AllButLast(batches: seq<seq<TargetEvent>>, b: bool)
    requires batches != []
    ensures var n := |batches| - 1; AllAddresses(batches, b) == AllAddresses(batches[..n], b) + Addresses(batches[n], b)
  {
    var n := |batches| - 1;
    assert forall i :: 0 <= i < n ==> batches[..n][i] == batches[i];
  }

  /** No address is started by one operation of the history and stopped by another. */
  predicate OneWay(s: State, ops: seq<Op>)
  {
    forall i, j :: 0 <= i < |ops| && 0 <= j < |ops| ==>
      Started(Run(s, ops[..i]), ops[i]) !! Stopped(Run(s, ops[..j]), ops[j])
  }

  lemma OneWayBatches(s: State, ops: seq<Op>, batches: seq<seq<TargetEvent>>)
    requires Batches(s, ops, batches)
    ensures OneWay(s, ops) <==> AllAddresses(batches, false) !! AllAddresses(batches, true)
  {
    forall i | 0 <= i < |ops|
      ensures Started(Run(s, ops[..i]), ops[i]) == Addresses(batches[i], true)
      ensures Stopped(Run(s, ops[..i]), ops[i]) == Addresses(batches[i], false)
    {
      assert Announces(Run(s, ops[..i]), ops[i], batches[i]);
    }
    hide Batches, Run, Started, Stopped, Addresses;
    if OneWay(s, ops) {
      forall a, j | 0 <= j < |ops| && a in Addresses(batches[j], false)
        ensures a !in AllAddresses(batches, true)
      {
        assert a in Stopped(Run(s, ops[..j]), ops[j]);
      }
    } else {
      var i, j :| 0 <= i < |ops| && 0 <= j < |ops| &&
        !(Started(Run(s, ops[..i]), ops[i]) !! Stopped(Run(s, ops[..j]), ops[j]));
      var a :| a in Addresses(batches[i], true) && a in Addresses(batches[j], false);
      assert a in AllAddresses(batches, true) && a in AllAddresses(batches, false);
    }
  }

  /** Every way the channel can receive the events leads to the schedulers the history calls for. */
  ghost predicate AnyOrderWorks(s: State, ops: seq<Op>, batches: seq<seq<TargetEvent>>)
  {
    forall m :: Merges(m, batches) ==> Replay(ActiveSet(s), m) == ActiveSet(Run(s, ops))
  }

  /** Any number of operations whose goroutines emit at the same time: every interleaving of their events gives the
      right outcome exactly when no address is started by one of the operations and stopped by another. */
  lemma AnyOrderWorksIff(s: State, ops: seq<Op>, batches: seq<seq<TargetEvent>>)
    requires Consistent(s) && Batches(s, ops, batches)
    ensures AnyOrderWorks(s, ops, batches) <==> OneWay(s, ops)
  {
    OneWayBatches(s, ops, batches);
    if OneWay(s, ops) {
      HistoryAnnounced(s, ops, batches);
      forall m | Merges(m, batches)
        ensures Replay(ActiveSet(s), m) == ActiveSet(Run(s, ops))
      {
        MergedAddresses(m, batches, false);
        MergedAddresses(m, batches, true);
        ReplayOneKind(ActiveSet(s), m);
      }
    } else {
      var a :| a in AllAddresses(batches, false) && a in AllAddresses(batches, true);
      var m := WrongOrder(s, ops, batches, a);
    }
  }

  /** If an address is announced both ways, the batch that says the wrong thing about it may come last. */
  lemma WrongOrder(s: State, ops: seq<Op>, batches: seq<seq<TargetEvent>>, a: Str) returns (m: seq<TargetEvent>)
    requires Batches(s, ops, batches) && a in AllAddresses(batches, false) && a in AllAddresses(batches, true)
    ensures Merges(m, batches) && (a in Replay(ActiveSet(s), m) <==> a !in ActiveSet(Run(s, ops)))
  {
    var wrong := a !in ActiveSet(Run(s, ops));
    var k :| 0 <= k < |batches| && a in Addresses(batches[k], wrong);
    var early := DrainLast(batches, k, |batches|);
    m := early + batches[k];
    ReplayAppend(ActiveSet(s), early, batches[k]);
    assert Distinct(batches[k]);
    ReplayDistinct(Replay(ActiveSet(s), early), batches[k]);
  }

  /** The worst order alone tells: if the events of two consecutive operations reach the channel the wrong way round,
      the outcome is right exactly under that same condition. */
  lemma SwappedEmissionIff(s: State, op: Op, evs: seq<TargetEvent>, next: Op, more: seq<TargetEvent>)
    requires Consistent(s) && Announces(s, op, evs) && Announces(After(s, op), next, more)
    ensures Replay(ActiveSet(s), more + evs) == ActiveSet(After(After(s, op), next)) <==>
      Started(s, op) !! Stopped(After(s, op), next) && Stopped(s, op) !! Started(After(s, op), next)
  {
    var S := ActiveSet(s);
    StepConsistent(s, op);
    ReplayAppend(S, more, evs);
    ReplayDistinct(S, more);
    ReplayDistinct(S - Addresses(more, false) + Addresses(more, true), evs);
    ReplayAnnounced(s, op, evs);
    ReplayAnnounced(After(s, op), next, more);
    ReplayDistinct(S, evs);
    ReplayDistinct(ActiveSet(After(s, op)), more);
    SwapSets(S, Stopped(s, op), Started(s, op), Stopped(After(s, op), next), Started(After(s, op), next));
  }

  lemma SwapSets(S: set<Str>, gone: set<Str>, come: set<Str>, gone': set<Str>, come': set<Str>)
    requires gone !! come && gone' !! come'
    ensures S - gone' + come' - gone + come == S - gone + come - gone' + come' <==> come !! gone' && gone !! come'
  {
    var l, r := S - gone' + come' - gone + come, S - gone + come - gone' + come';
    assert forall a :: a in come && a in gone' ==> a in l && a !in r;
    assert forall a :: a in gone && a in come' ==> a !in l && a in r;
    if come !! gone' && gone !! come' {
      assert l == r;
    }
  }

  /** The plainest failure: a target added and at once removed, its events reversed, keeps a scheduler although
      it is not registered. */
  lemma ReversedAddRemoveLeaks(s: State, t: Target, add: seq<TargetEvent>, remove: seq<TargetEvent>)
    requires Consistent(s) && t.address !in s.targets && Mine(s, t.address)
    requires Announces(s, Op.Add(t), add) && Announces(After(s, Op.Add(t)), Op.Remove(t.address), remove)
    ensures t.address in Replay(ActiveSet(s), remove + add)
    ensures t.address !in After(After(s, Op.Add(t)), Op.Remove(t.address)).targets
  {
    ReplayAppend(ActiveSet(s), remove, add);
    ReplayDistinct(Replay(ActiveSet(s), remove), add);
    assert t.address in Started(s, Op.Add(t));
  }
}

/** Minimal disruption, as seen in the events of UpdatePeers when peers join, leave or change places. */
module Rebalancing {
  import opened Bytes
  import opened Targets
  import opened Rendezvous
  import opened Sharding
  import opened RegistryState

  /** A replica without a pod IP, or before it knows any peer, is active on every registered target. */
  lemma AloneOwnsAll(s: State, self: Str)
    requires Consistent(s) && s.claims == Rule(self) && (self == [] || s.peers == [])
    ensures ActiveSet(s) == s.targets.Keys
  {
    forall a | a in s.targets
      ensures Mine(s, a)
    {
      OwnsIff(a, self, s.peers);
    }
  }

  /** A replica that is missing from a list of peers is active on none. */
  lemma OutsiderOwnsNothing(s: State, self: Str)
    requires Consistent(s) && s.claims == Rule(self) && self != [] && s.peers != [] && self !in s.peers
    ensures ActiveSet(s) == {}
  {
    forall a | a in s.targets
      ensures !Mine(s, a)
    {
      OwnsIff(a, self, s.peers);
    }
  }

  /** Joining at any position of the list: a replica other than the new peer gains no target, and what it loses the
      new peer now owns. */
  lemma JoinMovesToNewPeer(a: Str, self: Str, front: seq<Str>, p: Str, back: seq<Str>)
    requires self != p
    ensures Owns(a, self, front + [p] + back) ==> Owns(a, self, front + back)
    ensures Owns(a, self, front + back) && !Owns(a, self, front + [p] + back) ==> Owns(a, p, front + [p] + back)
  {
    if front + back == [] {
      assert front + [p] + back == [p];
    } else {
      InsertPeer(Bid(a), front, p, back);
    }
  }

  /** The list keeps its order and gains one peer, ties allowed.  The events of a replica are removals only: one for
      each target it probed that the new peer now owns, and for no other. */
  lemma InsertEvents(s: State, self: Str, front: seq<Str>, p: Str, back: seq<Str>, evs: seq<TargetEvent>)
    requires Consistent(s) && s.claims == Rule(self) && s.peers == front + back && self != p
    requires Announces(s, UpdatePeers(front + [p] + back), evs)
    ensures forall e :: e in evs ==> !e.isAdded && Owns(e.target.address, p, front + [p] + back)
    ensures Addresses(evs, false) == set a | a in ActiveSet(s) && !Owns(a, self, front + [p] + back)
  {
    hide Owns;
    var op := UpdatePeers(front + [p] + back);
    forall a | a in s.targets
      ensures Owns(a, self, front + [p] + back) ==> Owns(a, self, front + back)
      ensures Owns(a, self, front + back) && !Owns(a, self, front + [p] + back) ==> Owns(a, p, front + [p] + back)
    {
      JoinMovesToNewPeer(a, self, front, p, back);
    }
    PeerChange(s, self, op.peers);
    forall e | e in evs
      ensures !e.isAdded && Owns(e.target.address, p, front + [p] + back)
    {
      assert e.target.address in Addresses(evs, e.isAdded);
    }
  }

  /** The list keeps its order and loses one peer, ties allowed.  The events of a survivor are additions only: one for
      each target the departed peer owned that now falls to this replica, and for no other. */
  lemma DeleteEvents(s: State, self: Str, front: seq<Str>, p: Str, back: seq<Str>, evs: seq<TargetEvent>)
    requires Consistent(s) && s.claims == Rule(self) && s.peers == front + [p] + back && self != p
    requires Announces(s, UpdatePeers(front + back), evs)
    ensures forall e :: e in evs ==> e.isAdded && Owns(e.target.address, p, front + [p] + back)
    ensures Addresses(evs, true) ==
      set a | a in s.targets && Owns(a, self, front + back) && !Owns(a, self, front + [p] + back)
  {
    hide Owns;
    var op := UpdatePeers(front + back);
    forall a | a in s.targets
      ensures Owns(a, self, front + [p] + back) ==> Owns(a, self, front + back)
      ensures Owns(a, self, front + back) && !Owns(a, self, front + [p] + back) ==> Owns(a, p, front + [p] + back)
    {
      JoinMovesToNewPeer(a, self, front, p, back);
    }
    PeerChange(s, self, op.peers);
    forall e | e in evs
      ensures e.isAdded && Owns(e.target.address, p, front + [p] + back)
    {
      assert e.target.address in Addresses(evs, e.isAdded);
    }
  }

  /** Any number of peers joins and the list comes in any order: a replica that was a peer before gains no target with a
      unique best bid, and what it loses goes to newcomers. */
  lemma GrowthMovesToNewcomers(a: Str, self: Str, peers: seq<Str>, more: seq<Str>)
    requires Members(peers) <= Members(more) && more != [] && UniqueTop(Bid(a), more) &&
      (self in peers || self !in more)
    ensures Owns(a, self, more) ==> Owns(a, self, peers)
    ensures Owns(a, self, peers) && !Owns(a, self, more) ==> Winner(Bid(a), more) !in peers
  {
    if peers != [] && Winner(Bid(a), more) in peers {
      SubsetAgreement(Bid(a), more, peers);
    }
  }

  /** The events of a replica when peers join are removals only: one for each target it probed that a newcomer now owns,
      and for no other. */
  lemma JoinEvents(s: State, self: Str, more: seq<Str>, evs: seq<TargetEvent>)
    requires Consistent(s) && s.claims == Rule(self) && Announces(s, UpdatePeers(more), evs)
    requires Members(s.peers) <= Members(more) && more != [] && (self in s.peers || self !in more)
    requires forall a :: a in s.targets ==> UniqueTop(Bid(a), more)
    ensures forall e :: e in evs ==> !e.isAdded && Winner(Bid(e.target.address), more) !in s.peers
    ensures Addresses(evs, false) == set a | a in ActiveSet(s) && !Owns(a, self, more)
  {
    hide Owns;
    forall a | a in s.targets
      ensures Owns(a, self, more) ==> Owns(a, self, s.peers)
      ensures Owns(a, self, s.peers) && !Owns(a, self, more) ==> Winner(Bid(a), more) !in s.peers
    {
      GrowthMovesToNewcomers(a, self, s.peers, more);
    }
    PeerChange(s, self, more);
    forall e | e in evs
      ensures !e.isAdded && Winner(Bid(e.target.address), more) !in s.peers
    {
      assert e.target.address in Addresses(evs, e.isAdded);
    }
  }

  /** The events of a survivor when peers leave are additions only: one for each target a departed peer owned that now
      falls to this replica, and for no other. */
  lemma LeaveEvents(s: State, self: Str, fewer: seq<Str>, evs: seq<TargetEvent>)
    requires Consistent(s) && s.claims == Rule(self) && Announces(s, UpdatePeers(fewer), evs)
    requires Members(fewer) <= Members(s.peers) && s.peers != [] && (self in fewer || self !in s.peers)
    requires forall a :: a in s.targets ==> UniqueTop(Bid(a), s.peers)
    ensures forall e :: e in evs ==> e.isAdded && Winner(Bid(e.target.address), s.peers) !in fewer
    ensures Addresses(evs, true) == set a | a in s.targets && Owns(a, self, fewer) && !Owns(a, self, s.peers)
  {
    hide Owns;
    forall a | a in s.targets
      ensures Owns(a, self, s.peers) ==> Owns(a, self, fewer)
      ensures Owns(a, self, fewer) && !Owns(a, self, s.peers) ==> Winner(Bid(a), s.peers) !in fewer
    {
      GrowthMovesToNewcomers(a, self, fewer, s.peers);
    }
    PeerChange(s, self, fewer);
    forall e | e in evs
      ensures e.isAdded && Winner(Bid(e.target.address), s.peers) !in fewer
    {
      assert e.target.address in Addresses(evs, e.isAdded);
    }
  }

  /** Installing this peer list emits nothing. */
  predicate Silent(s: State, peers: seq<Str>)
  {
    Stopped(s, UpdatePeers(peers)) == {} && Started(s, UpdatePeers(peers)) == {}
  }

  lemma SilentIff(s: State, self: Str, peers: seq<Str>)
    requires Consistent(s) && s.claims == Rule(self)
    ensures Silent(s, peers) <==> forall a :: a in s.targets ==> (Owns(a, self, peers) <==> Owns(a, self, s.peers))
  {
    hide Owns, Stopped, Started, Consistent, Rule;
    PeerChange(s, self, peers);
    var gone, come := Stopped(s, UpdatePeers(peers)), Started(s, UpdatePeers(peers));
    if Silent(s, peers) {
      forall a | a in s.targets
        ensures Owns(a, self, peers) <==> Owns(a, self, s.peers)
      {
        assert a !in gone && a !in come;
      }
    } else {
      var a :| a in gone + come;
      assert a in s.targets && !(Owns(a, self, peers) <==> Owns(a, self, s.peers));
    }
  }

  /** Seeing the same peers in another order never moves a target. */
  ghost predicate ReorderIsSilent(s: State)
  {
    forall peers :: Members(peers) == Members(s.peers) ==> Silent(s, peers)
  }

  /** A peer list in another order emits nothing, whatever the order, exactly when the replica ties for the best bid on
      none of its registered targets. */
  lemma ReorderIsSilentIff(s: State, self: Str)
    requires Consistent(s) && s.claims == Rule(self) && s.peers != [] && self != []
    ensures ReorderIsSilent(s) <==> forall a :: a in s.targets ==> !TiedBest(Bid(a), s.peers, self)
  {
    hide Owns, Silent, Consistent, TiedBest;
    forall peers | Members(peers) == Members(s.peers)
      ensures Silent(s, peers) <==> forall a :: a in s.targets ==> (Owns(a, self, peers) <==> Owns(a, self, s.peers))
    {
      SilentIff(s, self, peers);
    }
    forall a | a in s.targets
      ensures !TiedBest(Bid(a), s.peers, self) <==> OwnsStable(a, self, s.peers)
    {
      OwnsStableIff(a, self, s.peers);
    }
    if ReorderIsSilent(s) {
      forall a, peers | a in s.targets && Members(peers) == Members(s.peers)
        ensures Owns(a, self, peers) <==> Owns(a, self, s.peers)
      {
        assert Silent(s, peers);
      }
    }
  }

  ghost predicate OwnsStable(a: Str, self: Str, peers: seq<Str>)
  {
    forall other :: Members(other) == Members(peers) ==> (Owns(a, self, other) <==> Owns(a, self, peers))
  }

  lemma OwnsStableIff(a: Str, self: Str, peers: seq<Str>)
    requires self != [] && peers != []
    ensures OwnsStable(a, self, peers) <==> !TiedBest(Bid(a), peers, self)
  {
    OwnStableIff(Bid(a), peers, self);
    hide TiedBest;
    forall other | Members(other) == Members(peers)
      ensures other != [] && (Owns(a, self, other) <==> Winner(Bid(a), other) == self)
    {
      assert peers[0] in Members(other);
    }
  }

  /** What UpdatePeers stops and starts, in terms of ownership before and after. */
  lemma PeerChange(s: State, self: Str, peers: seq<Str>)
    requires Consistent(s) && s.claims == Rule(self)
    ensures Stopped(s, UpdatePeers(peers)) == set a | a in s.targets && Owns(a, self, s.peers) && !Owns(a, self, peers)
    ensures Started(s, UpdatePeers(peers)) == set a | a in s.targets && !Owns(a, self, s.peers) && Owns(a, self, peers)
  {
    hide Owns;
    forall a | a in s.targets
      ensures a in ActiveSet(s) <==> Owns(a, self, s.peers)
      ensures a in ActiveSet(After(s, UpdatePeers(peers))) <==> Owns(a, self, peers)
    {
    }
  }
}

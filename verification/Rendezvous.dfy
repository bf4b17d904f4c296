/** The selection rule of rendezvous hashing, for any way of bidding: the highest bid wins, the earliest peer in
    the list among equal bids.  Replicas see the same peers in different orders, so the rule is studied on lists. */
module Rendezvous {
  import opened Bytes

  type Bids = Str -> int

  /** The selected pod, as the search loop finds it. */
  function Winner(bid: Bids, peers: seq<Str>): (pod: Str)
    requires peers != []
    ensures pod in peers
  {
    var last := peers[|peers| - 1];
    if |peers| == 1 then last else
      var pod := Winner(bid, peers[..|peers| - 1]);
      if bid(last) > bid(pod) then last else pod
  }

  /** One more peer. */
  lemma WinnerNext(bid: Bids, peers: seq<Str>, i: nat)
    requires i < |peers|
    ensures Winner(bid, peers[..i + 1]) ==
      if i == 0 || bid(peers[i]) > bid(Winner(bid, peers[..i])) then peers[i] else Winner(bid, peers[..i])
  {
    assert peers[..i + 1][..i] == peers[..i];
  }

  /** Independent description of the selected position: it beats everything before it and is not beaten after it. */
  ghost predicate FirstBest(bid: Bids, peers: seq<Str>, k: nat)
    requires k < |peers|
  {
    && (forall j :: 0 <= j < k ==> bid(peers[j]) < bid(peers[k]))
    && (forall j :: k <= j < |peers| ==> bid(peers[j]) <= bid(peers[k]))
  }

  ghost predicate OutbidsOthers(bid: Bids, peers: seq<Str>, p: Str)
  {
    forall q :: q in peers && q != p ==> bid(q) < bid(p)
  }

  /** The best bid among these pods is made by one pod only. */
  ghost predicate UniqueTop(bid: Bids, peers: seq<Str>)
  {
    exists p {:trigger OutbidsOthers(bid, peers, p)} :: p in peers && OutbidsOthers(bid, peers, p)
  }

  /** The search selects the first best peer. */
  lemma {:induction false} WinnerIsFirstBest(bid: Bids, peers: seq<Str>) returns (k: nat)
    requires peers != []
    ensures k < |peers| && FirstBest(bid, peers, k) && Winner(bid, peers) == peers[k]
  {
    var n := |peers| - 1;
    if n == 0 {
      k := 0;
    } else {
      var front := peers[..n];
      k := WinnerIsFirstBest(bid, front);
      assert forall j :: 0 <= j < n ==> peers[j] == front[j];
      if bid(peers[n]) > bid(peers[k]) {
        k := n;
      }
    }
  }

  lemma WinnerBeatsAll(bid: Bids, peers: seq<Str>, p: Str)
    requires p in peers
    ensures bid(p) <= bid(Winner(bid, peers))
  {
    var k := WinnerIsFirstBest(bid, peers);
    var j :| 0 <= j < |peers| && peers[j] == p;
  }

  /** The description pins the selected position down. */
  lemma FirstBestWins(bid: Bids, peers: seq<Str>, k: nat)
    requires k < |peers| && FirstBest(bid, peers, k)
    ensures Winner(bid, peers) == peers[k]
  {
    var i := WinnerIsFirstBest(bid, peers);
    assert !(i < k) && !(k < i);
  }

  lemma Agreement(bid: Bids, peers: seq<Str>, other: seq<Str>)
    requires peers != [] && other != [] && Members(peers) == Members(other) && UniqueTop(bid, peers)
    ensures Winner(bid, other) == Winner(bid, peers)
  {
    var p :| p in peers && OutbidsOthers(bid, peers, p);
    assert p in Members(other);
    WinnerBeatsAll(bid, peers, p);
    WinnerBeatsAll(bid, other, p);
    assert Winner(bid, other) in Members(peers);
  }

  /** A best peer moved to the front is selected. */
  lemma FrontRunnerWins(bid: Bids, q: Str, peers: seq<Str>)
    requires forall p :: p in peers ==> bid(p) <= bid(q)
    ensures Winner(bid, [q] + peers) == q
  {
    var other := [q] + peers;
    forall j | 0 <= j < |other|
      ensures bid(other[j]) <= bid(other[0])
    {
      assert j > 0 ==> other[j] in peers;
    }
    FirstBestWins(bid, other, 0);
  }

  /** Two pods sharing the best bid: which one is selected depends on the order of the list. */
  lemma TieFollowsOrder(bid: Bids, peers: seq<Str>) returns (q: Str)
    requires peers != [] && !UniqueTop(bid, peers)
    ensures q in peers && q != Winner(bid, peers) && Winner(bid, [q] + peers) == q
  {
    var w := Winner(bid, peers);
    assert !OutbidsOthers(bid, peers, w);
    q :| q in peers && q != w && bid(q) >= bid(w);
    forall p | p in peers
      ensures bid(p) <= bid(q)
    {
      WinnerBeatsAll(bid, peers, p);
    }
    FrontRunnerWins(bid, q, peers);
  }

  /** Every list of the same pods, in whatever order and multiplicity, selects the same pod. */
  ghost predicate OrderIrrelevant(bid: Bids, peers: seq<Str>)
    requires peers != []
  {
    forall other :: other != [] && Members(peers) == Members(other) ==> Winner(bid, other) == Winner(bid, peers)
  }

  /** Replicas that see the same pods agree whatever order they see them in, exactly when the best bid is unique. */
  lemma AgreementIff(bid: Bids, peers: seq<Str>)
    requires peers != []
    ensures OrderIrrelevant(bid, peers) <==> UniqueTop(bid, peers)
  {
    if UniqueTop(bid, peers) {
      forall other | other != [] && Members(peers) == Members(other)
        ensures Winner(bid, other) == Winner(bid, peers)
      {
        Agreement(bid, peers, other);
      }
    } else {
      TieBreaksAgreement(bid, peers);
    }
  }

  lemma TieBreaksAgreement(bid: Bids, peers: seq<Str>)
    requires peers != [] && !UniqueTop(bid, peers)
    ensures !OrderIrrelevant(bid, peers)
  {
    var q := TieFollowsOrder(bid, peers);
    var other := [q] + peers;
    assert Members(other) == Members(peers);
    assert Winner(bid, other) != Winner(bid, peers);
  }

  /** Adding a peer anywhere in the list leaves the selection alone or moves it to the new peer. */
  lemma InsertPeer(bid: Bids, front: seq<Str>, p: Str, back: seq<Str>)
    requires front + back != []
    ensures Winner(bid, front + [p] + back) == Winner(bid, front + back) || Winner(bid, front + [p] + back) == p
  {
    var l, m := front + back, front + [p] + back;
    hide Winner;
    var i := WinnerIsFirstBest(bid, m);
    if i != |front| {
      assert forall j :: 0 <= j < |l| ==> l[j] == m[if j < |front| then j else j + 1];
      FirstBestWins(bid, l, if i < |front| then i else i - 1);
    }
  }

  /** Among fewer pods the same one is selected as long as it is there, whatever the order. */
  lemma SubsetAgreement(bid: Bids, peers: seq<Str>, fewer: seq<Str>)
    requires UniqueTop(bid, peers) && Members(fewer) <= Members(peers) && peers != [] && Winner(bid, peers) in fewer
    ensures Winner(bid, fewer) == Winner(bid, peers)
  {
    var p :| p in peers && OutbidsOthers(bid, peers, p);
    WinnerBeatsAll(bid, peers, p);
    WinnerBeatsAll(bid, fewer, p);
    assert Winner(bid, fewer) in Members(fewer);
  }

  /** The pod makes the best bid, and another pod makes it too. */
  ghost predicate TiedBest(bid: Bids, peers: seq<Str>, self: Str)
  {
    && self in peers
    && (forall p :: p in peers ==> bid(p) <= bid(self))
    && (exists q :: q in peers && q != self && bid(q) == bid(self))
  }

  /** Whether this pod is the selected one does not depend on the order of the list. */
  ghost predicate OwnStable(bid: Bids, peers: seq<Str>, self: Str)
    requires peers != []
  {
    forall other :: other != [] && Members(other) == Members(peers) ==>
      (Winner(bid, other) == self <==> Winner(bid, peers) == self)
  }

  /** A pod is sure of what it owns in whatever order it sees its peers, exactly unless it ties for the best bid. */
  lemma OwnStableIff(bid: Bids, peers: seq<Str>, self: Str)
    requires peers != []
    ensures OwnStable(bid, peers, self) <==> !TiedBest(bid, peers, self)
  {
    if TiedBest(bid, peers, self) {
      var q :| q in peers && q != self && bid(q) == bid(self);
      FrontRunnerWins(bid, self, peers);
      FrontRunnerWins(bid, q, peers);
      assert Members([self] + peers) == Members(peers) && Members([q] + peers) == Members(peers);
    } else {
      forall other | other != [] && Members(other) == Members(peers)
        ensures Winner(bid, other) == self <==> Winner(bid, peers) == self
      {
        if Winner(bid, peers) == self && Winner(bid, other) != self {
          OnlyTiesMove(bid, peers, other, self);
        }
        if Winner(bid, other) == self && Winner(bid, peers) != self {
          OnlyTiesMove(bid, other, peers, self);
        }
      }
    }
  }

  lemma OnlyTiesMove(bid: Bids, peers: seq<Str>, other: seq<Str>, self: Str)
    requires peers != [] && other != [] && Members(other) == Members(peers)
    requires Winner(bid, peers) == self && Winner(bid, other) != self
    ensures TiedBest(bid, peers, self) && TiedBest(bid, other, self)
  {
    var w := Winner(bid, other);
    forall p | p in peers
      ensures bid(p) <= bid(self) && bid(p) <= bid(w)
    {
      assert p in Members(other);
      WinnerBeatsAll(bid, peers, p);
      WinnerBeatsAll(bid, other, p);
    }
    assert w in Members(peers) && self in Members(other);
    forall p | p in other
      ensures bid(p) <= bid(self)
    {
      assert p in Members(peers);
    }
  }
}

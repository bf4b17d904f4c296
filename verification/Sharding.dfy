/** Rendezvous hashing with virtual nodes (pkg/prober/sharding.go): the streaming hash of a
    (target, pod, virtual node) triple, and the nested search for the peer that owns a target. */
module Sharding {
  import opened Bytes
  import Decimal
  import Fnv
  import opened Rendezvous

  type Word = Fnv.Word

  /** Virtual nodes per peer. */
  const VNODES: nat := 100

  const NUL: Byte := 0
  const HASH_SIGN: Byte := 35

  /** Number of bytes in the digit buffer. */
  const BUFFER: nat := 10

  /** The digits hashed for a virtual node index.  For a negative index the digit loop does not run. */
  function VnodeText(vnode: int): Str
  {
    if vnode < 0 then [] else Decimal.Print(vnode)
  }

  /** The byte string that is hashed. */
  function Key(target: Str, podIP: Str, vnode: int): Str
  {
    target + [NUL] + podIP + [HASH_SIGN] + VnodeText(vnode)
  }

  function Weight(target: Str, podIP: Str, vnode: int): Word
  {
    Fnv.Hash(Key(target, podIP, vnode))
  }

  /** The digit buffer is large enough exactly for indices below 10^10. */
  lemma BufferFits(vnode: nat)
    ensures |Decimal.Digits(vnode)| <= BUFFER <==> vnode < 10_000_000_000
  {
    Decimal.DigitCount(vnode, BUFFER);
    assert Decimal.Pow10(5) == 100_000;
    assert Decimal.Pow10(10) == 10_000_000_000;
  }

  /** Streams the key through FNV-1a without building it.  An index of 10^10 or more would overrun the
      digit buffer. */
  method HashTargetPodAndVNode(target: Str, podIP: Str, vnode: int) returns (h: Word)
    requires vnode < 10_000_000_000
    ensures h == Weight(target, podIP, vnode)
  {
    h := AbsorbAll(Fnv.OFFSET, [], target);
    assert [] + target == target;
    h := AbsorbByte(h, target, NUL);
    h := AbsorbAll(h, target + [NUL], podIP);
    h := AbsorbByte(h, target + [NUL] + podIP, HASH_SIGN);
    ghost var front := target + [NUL] + podIP + [HASH_SIGN];
    if vnode == 0 {
      h := AbsorbByte(h, front, Decimal.ZERO);
    } else {
      var digits, idx := FillDigits(vnode);
      h := AbsorbFrom(h, front, digits, idx);
    }
  }

  /** One delimiter byte. */
  method AbsorbByte(start: Word, ghost front: Str, b: Byte) returns (h: Word)
    requires start == Fnv.Hash(front)
    ensures h == Fnv.Hash(front + [b])
  {
    h := Fnv.Absorb(start, b);
    assert (front + [b])[..|front|] == front;
  }

  /** The digit loop: fills a fixed buffer from its end, least significant digit first. */
  method FillDigits(vnode: int) returns (digits: array<Byte>, idx: nat)
    requires vnode < 10_000_000_000 && vnode != 0
    ensures fresh(digits) && digits.Length == BUFFER && idx <= BUFFER
    ensures digits[idx..] == VnodeText(vnode)
  {
    digits := new Byte[BUFFER];
    idx := digits.Length;
    var rest := vnode;
    if vnode > 0 { BufferFits(vnode); }
    while rest > 0
      invariant if vnode < 0 then rest == vnode && idx == BUFFER else 0 <= rest && |Decimal.Digits(rest)| <= idx
      invariant idx <= BUFFER
      invariant vnode > 0 ==> VnodeText(vnode) == Decimal.Digits(rest) + digits[idx..]
    {
      idx := idx - 1;
      digits[idx] := Decimal.ZERO + rest % 10;
      rest := rest / 10;
    }
  }

  /** The byte loop over one string of the key. */
  method AbsorbAll(start: Word, ghost front: Str, s: Str) returns (h: Word)
    requires start == Fnv.Hash(front)
    ensures h == Fnv.Hash(front + s)
  {
    h := start;
    var i := 0;
    assert front + s[..0] == front;
    while i < |s|
      invariant 0 <= i <= |s|
      invariant h == Fnv.Hash(front + s[..i])
    {
      h := Fnv.Absorb(h, s[i]);
      i := i + 1;
      assert (front + s[..i])[..|front| + i - 1] == front + s[..i - 1];
    }
    assert s[..i] == s;
  }

  /** The byte loop over the filled part of the digit buffer. */
  method AbsorbFrom(start: Word, ghost front: Str, digits: array<Byte>, idx: nat) returns (h: Word)
    requires idx <= digits.Length && start == Fnv.Hash(front)
    ensures h == Fnv.Hash(front + digits[idx..])
  {
    h := start;
    var i := idx;
    assert front + digits[idx..i] == front;
    while i < digits.Length
      invariant idx <= i <= digits.Length
      invariant h == Fnv.Hash(front + digits[idx..i])
    {
      h := Fnv.Absorb(h, digits[i]);
      i := i + 1;
      assert (front + digits[idx..i])[..|front| + i - 1 - idx] == front + digits[idx..i - 1];
    }
    assert digits[idx..i] == digits[idx..];
  }

  // ---------------------------------------------------------------- ownership

  /** The weights of a pod's virtual nodes for a target, by index. */
  function VnodeWeights(target: Str, podIP: Str): seq<Word>
  {
    seq(VNODES, v requires 0 <= v < VNODES => Weight(target, podIP, v))
  }

  /** The greatest of some weights; zero when there are none. */
  function Best(weights: seq<Word>): Word
  {
    if weights == [] then 0 else
      var last, best := weights[|weights| - 1], Best(weights[..|weights| - 1]);
      if last > best then last else best
  }

  /** It is the maximum: reached by one virtual node, exceeded by none. */
  lemma {:induction false} BestIsMaximum(weights: seq<Word>)
    requires weights != []
    ensures Best(weights) in weights && forall v :: 0 <= v < |weights| ==> weights[v] <= Best(weights)
  {
    var n := |weights| - 1;
    if n > 0 {
      BestIsMaximum(weights[..n]);
      assert forall v :: 0 <= v < n ==> weights[v] == weights[..n][v];
    }
  }

  /** One more weight. */
  lemma BestNext(weights: seq<Word>, v: nat)
    requires v < |weights|
    ensures Best(weights[..v + 1]) == if weights[v] > Best(weights[..v]) then weights[v] else Best(weights[..v])
    ensures Best(weights[..0]) == 0
  {
    assert weights[..v + 1][..v] == weights[..v];
  }

  /** What the pods bid for a target: the weight of their best virtual node. */
  function Bid(target: Str): Bids
  {
    podIP => Best(VnodeWeights(target, podIP))
  }

  /** The ownership decision of a replica. */
  predicate Owns(target: Str, selfPodIP: Str, peers: seq<Str>)
  {
    selfPodIP == [] || peers == [] || Winner(Bid(target), peers) == selfPodIP
  }

  /** A pod bids the greatest weight of its hundred virtual nodes. */
  lemma BidIsGreatestWeight(target: Str, podIP: Str)
    ensures exists v: nat :: v < 100 && Bid(target)(podIP) == Weight(target, podIP, v)
    ensures forall v: nat :: v < 100 ==> Weight(target, podIP, v) <= Bid(target)(podIP)
  {
    hide Weight, Best;
    var weights := VnodeWeights(target, podIP);
    BestIsMaximum(weights);
    var v :| 0 <= v < |weights| && weights[v] == Best(weights);
    assert Bid(target)(podIP) == Weight(target, podIP, v);
    forall u: nat | u < 100
      ensures Weight(target, podIP, u) <= Bid(target)(podIP)
    {
      assert weights[u] == Weight(target, podIP, u);
    }
  }

  /** A replica without a pod IP, or that knows no peers, owns everything; any other owns what it is the first best
      bidder for. */
  lemma OwnsIff(target: Str, selfPodIP: Str, peers: seq<Str>)
    ensures Owns(target, selfPodIP, peers) <==>
      || selfPodIP == []
      || peers == []
      || exists k: nat :: k < |peers| && peers[k] == selfPodIP && FirstBest(Bid(target), peers, k)
  {
    hide Bid;
    if selfPodIP != [] && peers != [] {
      var k := WinnerIsFirstBest(Bid(target), peers);
      forall j: nat | j < |peers| && FirstBest(Bid(target), peers, j)
        ensures Winner(Bid(target), peers) == peers[j]
      {
        FirstBestWins(Bid(target), peers, j);
      }
    }
  }

  /** The layout of the hashed key: for "a", "b" and 42 the bytes are "a", NUL, "b#42"; for index 0 the numeral is
      "0"; a negative index leaves none. */
  lemma KeyLayout()
    ensures Key([97], [98], 42) == [97, 0, 98, 35, 52, 50]
    ensures Key([97], [98], 0) == [97, 0, 98, 35, 48]
    ensures Key([97], [98], -1) == [97, 0, 98, 35]
  {
    assert Decimal.Digits(4) == [52];
    assert Decimal.Digits(42) == [52, 50];
  }

  /** The rule one replica applies to every target. */
  function Rule(selfPodIP: Str): (Str, seq<Str>) -> bool
  {
    (target, peers) => Owns(target, selfPodIP, peers)
  }

  /** The search loop over peers and virtual nodes. */
  method EvalShardingOwner(target: Str, selfPodIP: Str, peers: seq<Str>) returns (isOwner: bool)
    ensures isOwner == Owns(target, selfPodIP, peers)
  {
    if selfPodIP == [] || |peers| == 0 {
      return true;
    }
    hide Winner, Bid;
    var highestHash: Word := 0;
    var selectedPod: Str := [];
    ghost var bid := Bid(target);
    var i := 0;
    while i < |peers|
      invariant 0 <= i <= |peers|
      invariant i > 0 ==> selectedPod == Winner(bid, peers[..i]) && highestHash == bid(selectedPod)
    {
      highestHash, selectedPod := Challenge(target, peers[i], i == 0, highestHash, selectedPod);
      WinnerNext(bid, peers, i);
      i := i + 1;
    }
    assert peers[..i] == peers;
    isOwner := selectedPod == selfPodIP;
  }

  /** The inner loop: the virtual nodes of one peer challenge the best weight so far. */
  method Challenge(target: Str, podIP: Str, first: bool, bar: Word, holder: Str)
      returns (highestHash: Word, selectedPod: Str)
    ensures var bid := Bid(target)(podIP);
      if first || bid > bar then highestHash == bid && selectedPod == podIP
      else highestHash == bar && selectedPod == holder
  {
    hide Best;
    highestHash, selectedPod := bar, holder;
    ghost var weights := VnodeWeights(target, podIP);
    var v := 0;
    while v < VNODES
      invariant 0 <= v <= VNODES
      invariant v == 0 ==> highestHash == bar && selectedPod == holder
      invariant v > 0 ==>
        var bid := Best(weights[..v]);
        if first || bid > bar then highestHash == bid && selectedPod == podIP
        else highestHash == bar && selectedPod == holder
    {
      var h := HashTargetPodAndVNode(target, podIP, v);
      if (first && v == 0) || h > highestHash {
        highestHash := h;
        selectedPod := podIP;
      }
      assert weights[v] == h;
      BestNext(weights, v);
      v := v + 1;
    }
    assert weights[..v] == weights;
  }
}

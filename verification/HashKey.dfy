/** The hashed key of a (target, pod, virtual node) triple determines the triple, and nearby triples never collide. */
module HashKey {
  import opened Bytes
  import Decimal
  import Fnv
  import opened Sharding

  datatype Triple = Triple(target: Str, podIP: Str, vnode: nat)

  /** Reads a key back: the target ends at the first NUL, the pod IP at the last '#'. */
  function Decode(key: Str): Triple
  {
    var i := FirstIndex(key, NUL);
    var (podIP, vnode) := DecodeTail(if i < |key| then key[i + 1..] else []);
    Triple(key[..i], podIP, vnode)
  }

  function DecodeTail(tail: Str): (Str, nat)
  {
    var j := LastIndex(tail, HASH_SIGN);
    if j < 0 then ([], 0) else
      var v := Decimal.Parse(tail[j + 1..]);
      (tail[..j], if v < 0 then 0 else v)
  }

  lemma KeyShape(target: Str, podIP: Str, vnode: nat)
    ensures Key(target, podIP, vnode) == target + [NUL] + (podIP + [HASH_SIGN] + Decimal.Print(vnode))
  {
  }

  /** Any pod IP is allowed, even one holding NUL or '#'; only the target must be free of NUL. */
  lemma KeyRoundTrip(target: Str, podIP: Str, vnode: nat)
    requires NUL !in target
    ensures Decode(Key(target, podIP, vnode)) == Triple(target, podIP, vnode)
  {
    var tail := podIP + [HASH_SIGN] + Decimal.Print(vnode);
    KeyShape(target, podIP, vnode);
    SplitFirst(target, NUL, tail);
    var key := target + [NUL] + tail;
    assert key[..|target|] == target && key[|target| + 1..] == tail;
    TailRoundTrip(podIP, vnode);
  }

  lemma TailRoundTrip(podIP: Str, vnode: nat)
    ensures DecodeTail(podIP + [HASH_SIGN] + Decimal.Print(vnode)) == (podIP, vnode)
  {
    var text := Decimal.Print(vnode);
    var tail := podIP + [HASH_SIGN] + text;
    SplitLast(podIP, HASH_SIGN, text);
    assert tail[..|podIP|] == podIP && tail[|podIP| + 1..] == text;
    Decimal.RoundTrip(vnode);
  }

  /** No other triple has the key of this one. */
  ghost predicate Unambiguous(target: Str, podIP: Str, vnode: nat)
  {
    forall t: Str, p: Str, v: nat :: Key(t, p, v) == Key(target, podIP, vnode) ==>
      t == target && p == podIP && v == vnode
  }

  /** A key identifies its triple among all triples exactly when neither string holds a NUL byte. */
  lemma UnambiguousIff(target: Str, podIP: Str, vnode: nat)
    ensures Unambiguous(target, podIP, vnode) <==> NUL !in target && NUL !in podIP
  {
    if NUL in target + podIP {
      var t, p := NulShifts(target, podIP, vnode);
      assert Key(t, p, vnode) == Key(target, podIP, vnode);
    } else {
      assert NUL !in target && NUL !in podIP;
      forall t: Str, p: Str, v: nat | Key(t, p, v) == Key(target, podIP, vnode)
        ensures t == target && p == podIP && v == vnode
      {
        OnlyOneNul(target, podIP, vnode, t, p, v);
        KeyRoundTrip(target, podIP, vnode);
        KeyRoundTrip(t, p, v);
      }
    }
  }

  /** A NUL inside either string is as good a separator as the one the hash inserts. */
  lemma NulShifts(target: Str, podIP: Str, vnode: nat) returns (t: Str, p: Str)
    requires NUL in target + podIP
    ensures Key(t, p, vnode) == Key(target, podIP, vnode) && |t| != |target|
  {
    if NUL in target {
      var i :| 0 <= i < |target| && target[i] == NUL;
      t, p := target[..i], target[i + 1..] + [NUL] + podIP;
      assert t + [NUL] + p == target + [NUL] + podIP;
    } else {
      var i :| 0 <= i < |podIP| && podIP[i] == NUL;
      t, p := target + [NUL] + podIP[..i], podIP[i + 1..];
      assert t + [NUL] + p == target + [NUL] + podIP;
    }
  }

  lemma OnlyOneNul(target: Str, podIP: Str, vnode: nat, t: Str, p: Str, v: nat)
    requires NUL !in target && NUL !in podIP
    requires Key(t, p, v) == Key(target, podIP, vnode)
    ensures NUL !in t
  {
    var key := Key(target, podIP, vnode);
    forall i | 0 <= i < |key| && key[i] == NUL
      ensures i == |target|
    {
      NulPosition(target, podIP, vnode, i);
    }
    assert Key(t, p, v)[|t|] == NUL;
    forall i | 0 <= i < |t|
      ensures t[i] != NUL
    {
      assert Key(t, p, v)[i] == t[i];
    }
  }

  lemma NulPosition(target: Str, podIP: Str, vnode: nat, i: nat)
    requires NUL !in target && NUL !in podIP
    requires i < |Key(target, podIP, vnode)| && Key(target, podIP, vnode)[i] == NUL
    ensures i == |target|
  {
    var tail := podIP + [HASH_SIGN] + Decimal.Print(vnode);
    KeyShape(target, podIP, vnode);
    assert NUL !in tail;
    assert forall j :: 0 <= j < |tail| ==> (target + [NUL] + tail)[|target| + 1 + j] == tail[j];
  }

  /** For a fixed target and pod, indices whose numerals have equal length and differ in one digit get
      different hashes. */
  lemma OneDigitDifference(target: Str, podIP: Str, v: nat, w: nat, i: nat)
    requires var a, b := Decimal.Print(v), Decimal.Print(w);
      && |a| == |b| && i < |a| && a[i] != b[i]
      && forall j :: 0 <= j < |a| && j != i ==> a[j] == b[j]
    ensures Weight(target, podIP, v) != Weight(target, podIP, w)
  {
    var front := target + [NUL] + podIP + [HASH_SIGN];
    assert Key(target, podIP, v) == front + Decimal.Print(v);
    assert Key(target, podIP, w) == front + Decimal.Print(w);
    Fnv.OneByteDifference(front + Decimal.Print(v), front + Decimal.Print(w), |front| + i);
  }

  /** Two indices that agree up to their last digit never share a hash; in particular `v` and `v + 1` do not,
      unless `v` ends in 9. */
  lemma LastDigitDifference(target: Str, podIP: Str, v: nat, w: nat)
    requires v != w && v / 10 == w / 10
    ensures Weight(target, podIP, v) != Weight(target, podIP, w)
  {
    var high := Decimal.Digits(v / 10);
    assert Decimal.Print(v) == high + [Decimal.ZERO + v % 10];
    assert Decimal.Print(w) == high + [Decimal.ZERO + w % 10];
    OneDigitDifference(target, podIP, v, w, |high|);
  }
}

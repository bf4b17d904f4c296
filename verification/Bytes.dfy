/** Byte strings.  Go strings are byte sequences; every string of the prober (target address, pod IP,
    slice key, scheme, path) is modelled as one. */
module Bytes {

  type Byte = b: int | 0 <= b < 256

  type Str = seq<Byte>

  datatype Option<+T> = None | Some(value: T)

  /** The bytes of an ASCII literal. */
  function Ascii(s: string): Str
  {
    seq(|s|, i requires 0 <= i < |s| => s[i] as int % 256)
  }

  /** The strings of a list, order and multiplicity forgotten. */
  function Members(list: seq<Str>): set<Str>
  {
    set x | x in list
  }

  /** Position of the first `c` in `s`, or `|s|` when there is none. */
  function FirstIndex(s: Str, c: Byte): (k: nat)
    ensures k <= |s|
  {
    if s == [] || s[0] == c then 0 else 1 + FirstIndex(s[1..], c)
  }

  /** Position of the last `c` in `s`, or -1 when there is none. */
  function LastIndex(s: Str, c: Byte): (k: int)
    ensures -1 <= k < |s|
  {
    if s == [] then -1
    else if s[|s| - 1] == c then |s| - 1
    else LastIndex(s[..|s| - 1], c)
  }

  /** A separator absent from the left part is found where the left part ends. */
  lemma {:induction false} SplitFirst(left: Str, c: Byte, right: Str)
    requires c !in left
    ensures FirstIndex(left + [c] + right, c) == |left|
  {
    if left != [] {
      SplitFirst(left[1..], c, right);
      assert (left + [c] + right)[1..] == left[1..] + [c] + right;
    }
  }

  lemma {:induction false} Absent(s: Str, c: Byte)
    requires c !in s
    ensures FirstIndex(s, c) == |s|
  {
    if s != [] {
      Absent(s[1..], c);
    }
  }

  /** A separator absent from the right part is found where the right part begins. */
  lemma {:induction false} SplitLast(left: Str, c: Byte, right: Str)
    requires c !in right
    ensures LastIndex(left + [c] + right, c) == |left|
  {
    if right != [] {
      var front := right[..|right| - 1];
      SplitLast(left, c, front);
      assert (left + [c] + right)[..|left| + |right|] == left + [c] + front;
    }
  }
}

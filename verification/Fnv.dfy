/** FNV-1a over 64-bit words: section 2 ("FNV Basics") of the FNV specification, draft-eastlake-fnv. */
module Fnv {
  import opened Bytes

  const MODULUS: int := 0x1_0000_0000_0000_0000
  const PRIME: int := 1099511628211
  const OFFSET: Word := 14695981039346656037

  /** A `uint64`. */
  type Word = x: int | 0 <= x < 0x1_0000_0000_0000_0000

  /** Bitwise exclusive or, defined bit by bit. */
  function Xor(x: nat, y: nat): nat
  {
    if x == 0 && y == 0 then 0
    else 2 * Xor(x / 2, y / 2) + (if x % 2 == y % 2 then 0 else 1)
  }

  function Pow2(n: nat): nat
  {
    if n == 0 then 1 else 2 * Pow2(n - 1)
  }

  lemma {:induction false} XorBound(x: nat, y: nat, n: nat)
    requires x < Pow2(n) && y < Pow2(n)
    ensures Xor(x, y) < Pow2(n)
  {
    if n > 0 {
      XorBound(x / 2, y / 2, n - 1);
    }
  }

  lemma {:induction false} XorSelfInverse(x: nat, y: nat)
    ensures Xor(Xor(x, y), y) == x
  {
    if x != 0 || y != 0 {
      XorSelfInverse(x / 2, y / 2);
    }
  }

  lemma {:induction false} XorCommutes(x: nat, y: nat)
    ensures Xor(x, y) == Xor(y, x)
  {
    if x != 0 || y != 0 {
      XorCommutes(x / 2, y / 2);
    }
  }

  lemma {:induction false} Pow2Sum(m: nat, n: nat)
    ensures Pow2(m + n) == Pow2(m) * Pow2(n)
  {
    if n > 0 {
      Pow2Sum(m, n - 1);
      assert Pow2(m + n) == 2 * Pow2(m + n - 1);
    }
  }

  lemma WordBits()
    ensures Pow2(64) == MODULUS
  {
    assert Pow2(2) == 4;
    Pow2Sum(2, 2);
    Pow2Sum(4, 4);
    Pow2Sum(8, 8);
    Pow2Sum(16, 16);
    Pow2Sum(32, 32);
  }

  /** `h ^ uint64(b)` stays a 64-bit word. */
  function XorByte(h: Word, b: Byte): Word
  {
    WordBits();
    XorBound(h, b, 64);
    Xor(h, b)
  }

  /** `x * fnvPrime64` with the wrap-around of `uint64`. */
  function TimesPrime(x: Word): Word
  {
    x * PRIME % MODULUS
  }

  /** One round of FNV-1a: absorb one byte. */
  function Absorb(h: Word, b: Byte): Word
  {
    TimesPrime(XorByte(h, b))
  }

  /** FNV-1a of `key`, continued from state `h`. */
  function Fold(h: Word, key: Str): Word
  {
    if key == [] then h else Absorb(Fold(h, key[..|key| - 1]), key[|key| - 1])
  }

  function Hash(key: Str): Word
  {
    Fold(OFFSET, key)
  }

  /** The inverse of PRIME modulo 2^64. */
  const INVERSE: int := 14886173955864302971

  lemma WrapsTo(x: Word, rounds: int)
    ensures (x + MODULUS * rounds) % MODULUS == x
  {
  }

  /** Multiplying by the odd prime loses nothing: the product determines the word. */
  lemma TimesPrimeInvertible(x: Word)
    ensures TimesPrime(x) * INVERSE % MODULUS == x
  {
    var q := x * PRIME / MODULUS;
    var t := (PRIME * INVERSE - 1) / MODULUS;
    assert TimesPrime(x) * INVERSE == x + MODULUS * (x * t - q * INVERSE) by {
      assert TimesPrime(x) == x * PRIME - MODULUS * q;
      assert PRIME * INVERSE == 1 + MODULUS * t;
    }
    WrapsTo(x, x * t - q * INVERSE);
  }

  /** Each round is injective in the state and, separately, in the byte. */
  lemma AbsorbInjective(g: Word, b: Byte, h: Word, c: Byte)
    requires Absorb(g, b) == Absorb(h, c)
    ensures g == h <==> b == c
  {
    TimesPrimeInvertible(XorByte(g, b));
    TimesPrimeInvertible(XorByte(h, c));
    XorSelfInverse(g, b);
    XorSelfInverse(h, c);
    XorCommutes(g, b);
    XorCommutes(h, c);
    XorSelfInverse(b, g);
    XorSelfInverse(c, h);
  }

  lemma {:induction false} FoldAppend(h: Word, front: Str, back: Str)
    ensures Fold(h, front + back) == Fold(Fold(h, front), back)
  {
    if back == [] {
      assert front + back == front;
    } else {
      assert (front + back)[..|front + back| - 1] == front + back[..|back| - 1];
      FoldAppend(h, front, back[..|back| - 1]);
    }
  }

  /** Absorbing the same bytes never merges two different states. */
  lemma {:induction false} FoldInjective(g: Word, h: Word, key: Str)
    requires Fold(g, key) == Fold(h, key)
    ensures g == h
  {
    if key != [] {
      var b := key[|key| - 1];
      AbsorbInjective(Fold(g, key[..|key| - 1]), b, Fold(h, key[..|key| - 1]), b);
      FoldInjective(g, h, key[..|key| - 1]);
    }
  }

  /** Two keys of equal length that differ in exactly one byte never collide. */
  lemma OneByteDifference(k: Str, l: Str, i: nat)
    requires |k| == |l| && i < |k| && k[i] != l[i]
    requires forall j :: 0 <= j < |k| && j != i ==> k[j] == l[j]
    ensures Hash(k) != Hash(l)
  {
    var front, back := k[..i], k[i + 1..];
    assert front == l[..i] && back == l[i + 1..];
    assert k == front + [k[i]] + back && l == front + [l[i]] + back;
    var h := Fold(OFFSET, front);
    FoldAppend(OFFSET, front, [k[i]]);
    FoldAppend(OFFSET, front, [l[i]]);
    assert Fold(h, [k[i]]) == Absorb(h, k[i]) && Fold(h, [l[i]]) == Absorb(h, l[i]);
    FoldAppend(OFFSET, front + [k[i]], back);
    FoldAppend(OFFSET, front + [l[i]], back);
    if Hash(k) == Hash(l) {
      FoldInjective(Absorb(h, k[i]), Absorb(h, l[i]), back);
      AbsorbInjective(h, k[i], h, l[i]);
    }
  }

  // ---------------------------------------------------------------- what the hash is, apart from its definition

  /** Bit `i` of `x`, counted from the least significant. */
  function Bit(x: nat, i: nat): nat
  {
    if i == 0 then x % 2 else Bit(x / 2, i - 1)
  }

  lemma {:induction false} XorBits(x: nat, y: nat, i: nat)
    ensures Bit(Xor(x, y), i) == 1 <==> Bit(x, i) != Bit(y, i)
  {
    BitRange(x, i);
    BitRange(y, i);
    if i > 0 {
      XorBits(x / 2, y / 2, i - 1);
    }
  }

  lemma {:induction false} BitsDetermine(x: nat, y: nat)
    requires forall i: nat :: Bit(x, i) == Bit(y, i)
    ensures x == y
    decreases x + y
  {
    assert Bit(x, 0) == Bit(y, 0);
    if x != 0 || y != 0 {
      forall i: nat
        ensures Bit(x / 2, i) == Bit(y / 2, i)
      {
        assert Bit(x, i + 1) == Bit(y, i + 1);
      }
      BitsDetermine(x / 2, y / 2);
    }
  }

  lemma {:induction false} BitRange(x: nat, i: nat)
    ensures 0 <= Bit(x, i) <= 1
  {
    if i > 0 {
      BitRange(x / 2, i - 1);
    }
  }

  /** One round: first the byte flips the bits of the state it has set, then the word `y` so obtained is multiplied. */
  lemma AbsorbFlipsThenMultiplies(h: Word, b: Byte, y: Word)
    requires forall i: nat :: Bit(y, i) == 1 <==> Bit(h, i) != Bit(b, i)
    ensures Absorb(h, b) == y * 1099511628211 % 0x1_0000_0000_0000_0000
  {
    forall i: nat
      ensures Bit(y, i) == Bit(Xor(h, b), i)
    {
      XorBits(h, b, i);
      BitRange(y, i);
      BitRange(Xor(h, b), i);
    }
    BitsDetermine(y, Xor(h, b));
  }

  /** Two keys that differ in the lowest bit of the last byte hash one prime apart: nothing follows the last
      multiplication. */
  lemma LastBitStep(key: Str, b: Byte)
    requires b % 2 == 0
    ensures var d := (Hash(key + [b + 1]) - Hash(key + [b])) % 0x1_0000_0000_0000_0000;
      d == 1099511628211 || d == 0x1_0000_0000_0000_0000 - 1099511628211
  {
    var h := Hash(key);
    hide Xor, TimesPrime, Hash;
    HashMore(key, b);
    HashMore(key, b + 1);
    LastBitFlips(h, b);
    PrimeStep(XorByte(h, b), XorByte(h, b + 1));
  }

  lemma LastBitFlips(h: nat, b: nat)
    requires b % 2 == 0
    ensures Xor(h, b + 1) == Xor(h, b) + 1 || Xor(h, b + 1) == Xor(h, b) - 1
  {
    assert (b + 1) / 2 == b / 2;
    XorZero(h);
  }

  lemma PrimeStep(x: Word, y: Word)
    requires y == x + 1 || y == x - 1
    ensures (TimesPrime(y) - TimesPrime(x)) % MODULUS == if y == x + 1 then PRIME else MODULUS - PRIME
  {
    var p, q := x * PRIME / MODULUS, y * PRIME / MODULUS;
    if y == x + 1 {
      assert TimesPrime(y) - TimesPrime(x) == PRIME + MODULUS * (p - q);
      WrapsTo(PRIME, p - q);
    } else {
      assert TimesPrime(y) - TimesPrime(x) == MODULUS - PRIME + MODULUS * (p - q - 1);
      WrapsTo(MODULUS - PRIME, p - q - 1);
    }
  }

  lemma {:induction false} XorZero(x: nat)
    ensures Xor(x, 0) == x
  {
    if x != 0 {
      XorZero(x / 2);
    }
  }

  /** The lowest `n` bits are the same. */
  predicate SameLow(x: nat, low: nat, n: nat)
  {
    n == 0 || (x % 2 == low % 2 && SameLow(x / 2, low / 2, n - 1))
  }

  /** Only the low bits of the state matter to the flip. */
  lemma {:induction false} FlipLow(x: nat, low: nat, b: nat, n: nat)
    requires SameLow(x, low, n) && b < Pow2(n)
    ensures Xor(x, b) - x == Xor(low, b) - low
  {
    if n == 0 {
      XorZero(x);
      XorZero(low);
    } else {
      FlipLow(x / 2, low / 2, b / 2, n - 1);
    }
  }

  lemma HashMore(key: Str, b: Byte)
    ensures Hash(key + [b]) == Absorb(Hash(key), b)
  {
    assert (key + [b])[..|key|] == key;
  }

  lemma LowByte()
    ensures SameLow(OFFSET, 37, 8)
  {
  }

  lemma FlippedA()
    ensures XorByte(OFFSET, 97) == OFFSET + 31
  {
    assert Pow2(8) == 256;
    LowByte();
    hide SameLow;
    FlipLow(OFFSET, 37, 97, 8);
    assert Xor(37, 97) == 68;
  }

  lemma EmptyHash()
    ensures Hash([]) == OFFSET
  {
  }

  /** Published test vectors of FNV-1a: the empty string and "a". */
  lemma TestVectors()
    ensures Hash([]) == 0xcbf29ce484222325
    ensures Hash([97]) == 0xaf63dc4c8601ec8c
  {
    hide XorByte, Fold, Hash;
    EmptyHash();
    FlippedA();
    HashMore([], 97);
    assert [] + [97] == [97];
  }
}

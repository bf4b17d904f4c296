/** Decimal rendering of non-negative integers, as `%d` and the unrolled digit loop of the hash print them. */
module Decimal {
  import opened Bytes

  const ZERO: Byte := 48

  /** The significant digits of `n`, most significant first; none for zero. */
  function Digits(n: nat): (ds: Str)
    ensures forall k :: 0 <= k < |ds| ==> ZERO <= ds[k] < ZERO + 10
  {
    if n == 0 then [] else Digits(n / 10) + [ZERO + n % 10]
  }

  /** The decimal numeral of `n`. */
  function Print(n: nat): (ds: Str)
    ensures |ds| > 0 && forall k :: 0 <= k < |ds| ==> ZERO <= ds[k] < ZERO + 10
  {
    if n == 0 then [ZERO] else Digits(n)
  }

  /** The value of a numeral; bytes are read relative to '0' whatever they are. */
  function Parse(ds: Str): int
  {
    if ds == [] then 0 else 10 * Parse(ds[..|ds| - 1]) + (ds[|ds| - 1] - ZERO)
  }

  function Pow10(k: nat): (p: nat)
    ensures p > 0
  {
    if k == 0 then 1 else 10 * Pow10(k - 1)
  }

  lemma {:induction false} ParseDigits(n: nat)
    ensures Parse(Digits(n)) == n
  {
    if n > 0 {
      ParseDigits(n / 10);
      assert Digits(n)[..|Digits(n)| - 1] == Digits(n / 10);
    }
  }

  /** Printing then parsing gives the number back, so different numbers have different numerals. */
  lemma RoundTrip(n: nat)
    ensures Parse(Print(n)) == n
  {
    ParseDigits(n);
    assert [ZERO][..0] == [];
  }

  /** A number has at most `k` significant digits exactly when it is below 10^k. */
  lemma {:induction false} DigitCount(n: nat, k: nat)
    ensures |Digits(n)| <= k <==> n < Pow10(k)
  {
    if n > 0 && k > 0 {
      DigitCount(n / 10, k - 1);
    }
  }

  lemma {:induction false} Pow10Grows(j: nat, k: nat)
    requires j <= k
    ensures Pow10(j) <= Pow10(k)
  {
    if j < k {
      Pow10Grows(j, k - 1);
    }
  }
}

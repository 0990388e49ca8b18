/** Bytes, and numbers written as big-endian digits. */
module Bytes {
  type byte = x: int | 0 <= x < 256

  /** The minimal big-endian digits of a number, base 256. */
  function Digits(n: nat): (r: seq<byte>)
    ensures |r| > 0
    ensures n > 0 ==> r[0] != 0
  {
    if n < 256 then [n] else Digits(n / 256) + [n % 256]
  }

  function Value(ds: seq<byte>): nat {
    if ds == [] then 0 else 256 * Value(ds[..|ds| - 1]) + ds[|ds| - 1]
  }

  lemma {:induction false} ValueOfDigits(n: nat)
    ensures Value(Digits(n)) == n
  {
    var ds := Digits(n);
    if n >= 256 {
      ValueOfDigits(n / 256);
      assert ds[..|ds| - 1] == Digits(n / 256);
    } else {
      assert ds[..|ds| - 1] == [];
    }
  }

  /** Digits without a leading zero are the minimal ones. */
  lemma {:induction false} DigitsOfValue(ds: seq<byte>)
    requires ds != [] && ds[0] != 0
    ensures Digits(Value(ds)) == ds
    ensures Value(ds) > 0
  {
    var front, last := ds[..|ds| - 1], ds[|ds| - 1];
    if front == [] {
      assert ds == [last];
    } else {
      DigitsOfValue(front);
      assert Value(ds) / 256 == Value(front) && Value(ds) % 256 == last;
      assert ds == front + [last];
    }
  }

  /** A number below the k-th power of 256 has at most k digits. */
  lemma {:induction false} DigitsLength(n: nat, k: nat)
    requires k >= 1 && n < Pow256(k)
    ensures |Digits(n)| <= k
  {
    if n >= 256 {
      assert k >= 2 by {
        assert Pow256(1) == 256;
      }
      DigitsLength(n / 256, k - 1);
    }
  }

  function Pow256(k: nat): nat {
    if k == 0 then 1 else 256 * Pow256(k - 1)
  }
}

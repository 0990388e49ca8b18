/** Tag numbers of 31 and above (X.690, section 8.1.2.4): base-128 digits, all but the last marked, in
    their shortest form. */
module Base128 {
  import opened Wrappers
  import opened Seqs
  import opened Bytes

  /** The reading library holds tags in 32 bits (encoding/asn1 in Go). */
  const MAX_TAG: nat := 0x7fff_ffff

  /** The marked digits. */
  function Marked(n: nat): seq<byte> {
    if n == 0 then [] else Marked(n / 128) + [128 + n % 128]
  }

  function Octets(n: nat): (r: seq<byte>)
    ensures |r| > 0
  {
    Marked(n / 128) + [n % 128]
  }

  datatype TagError = TruncatedTag | TagTooLarge | NonMinimalTag

  /** The loop of the reader: `acc` holds the k digits read so far. */
  function ReadDigits(data: seq<byte>, acc: nat, k: nat): (r: Outcome<(nat, seq<byte>), TagError>)
    ensures r.Ok? ==> |r.value.1| < |data|
    decreases |data|
  {
    if data == [] then Err(TruncatedTag)
    else if k == 5 then Err(TagTooLarge)
    else if k == 0 && data[0] == 128 then Err(NonMinimalTag)
    else
      var v := 128 * acc + data[0] % 128;
      if data[0] >= 128 then ReadDigits(data[1..], v, k + 1)
      else if v > MAX_TAG then Err(TagTooLarge)
      else Ok((v, data[1..]))
  }

  lemma {:induction false} AllMarked(n: nat)
    ensures forall j | 0 <= j < |Marked(n)| :: Marked(n)[j] >= 128
  {
    if n > 0 {
      AllMarked(n / 128);
    }
  }

  lemma {:induction false} MarkedInjective(m: nat, n: nat)
    requires Marked(m) == Marked(n)
    ensures m == n
    decreases m
  {
    if m > 0 && n > 0 {
      var a, b := Marked(m / 128), Marked(n / 128);
      assert a + [128 + m % 128] == b + [128 + n % 128];
      assert |a| == |b|;
      SameParts(a, [128 + m % 128], b, [128 + n % 128]);
      assert [128 + m % 128][0] == [128 + n % 128][0];
      MarkedInjective(m / 128, n / 128);
    }
  }

  /** Fewer than five marked digits come before the last one of a tag. */
  lemma FewMarked(n: nat)
    requires n <= MAX_TAG / 128
    ensures |Marked(n)| <= 4
  {
    assert n / 128 / 128 / 128 / 128 == 0;
    assert Marked(n / 128 / 128 / 128 / 128) == [];
    assert |Marked(n / 128 / 128 / 128)| <= 1;
    assert |Marked(n / 128 / 128)| <= 2;
    assert |Marked(n / 128)| <= 3;
  }

  /** The first unmarked byte ends the tag. */
  lemma SameDigits(acc: nat, last: byte, n: nat, a: seq<byte>, b: seq<byte>)
    requires last < 128 && Marked(acc) + ([last] + a) == Octets(n) + b
    ensures n == 128 * acc + last && a == b
  {
    AllMarked(acc);
    AllMarked(n / 128);
    var x, y := Marked(acc), Marked(n / 128);
    var left, right := x + ([last] + a), y + ([n % 128] + b);
    Assoc(y, [n % 128], b);
    assert left == right;
    assert left[|x|] == last && right[|y|] == n % 128;
    assert forall j | 0 <= j < |x| :: left[j] == x[j];
    assert forall j | 0 <= j < |y| :: right[j] == y[j];
    SameParts(x, [last] + a, y, [n % 128] + b);
    SameParts([last], a, [n % 128], b);
    assert [last][0] == [n % 128][0];
    MarkedInjective(acc, n / 128);
  }

  lemma MarkedStep(acc: nat, digit: byte)
    requires digit >= 128 && 128 * acc + digit % 128 > 0
    ensures Marked(128 * acc + digit % 128) == Marked(acc) + [digit]
  {
    var v := 128 * acc + digit % 128;
    assert v / 128 == acc && v % 128 == digit - 128;
  }

  lemma {:induction false} DigitsIff(data: seq<byte>, acc: nat, k: nat, n: nat, rest: seq<byte>)
    requires k == |Marked(acc)| <= 5
    ensures ReadDigits(data, acc, k) == Ok((n, rest)) <==> n <= MAX_TAG && Marked(acc) + data == Octets(n) + rest
    decreases |data|
  {
    if data == [] || k == 5 {
      EndsTooSoon(data, acc, n, rest);
    } else if data[0] < 128 {
      LastDigitIff(data, acc, n, rest);
    } else if k == 0 && data[0] == 128 {
      Empty(data);
      ZeroIsNotFirst(data, n, rest);
    } else {
      var v := 128 * acc + data[0] % 128;
      MarkedStep(acc, data[0]);
      HeadTail(data);
      Assoc(Marked(acc), [data[0]], data[1..]);
      DigitsIff(data[1..], v, k + 1, n, rest);
    }
  }

  lemma LastDigitIff(data: seq<byte>, acc: nat, n: nat, rest: seq<byte>)
    requires data != [] && data[0] < 128
    ensures Marked(acc) + data == Octets(n) + rest <==> n == 128 * acc + data[0] && rest == data[1..]
  {
    HeadTail(data);
    Assoc(Marked(acc), [data[0]], data[1..]);
    assert (128 * acc + data[0]) / 128 == acc && (128 * acc + data[0]) % 128 == data[0];
    if Marked(acc) + data == Octets(n) + rest {
      SameDigits(acc, data[0], n, data[1..], rest);
    }
  }

  /** A tag within the limit has an unmarked byte among its first five. */
  lemma EndsTooSoon(data: seq<byte>, acc: nat, n: nat, rest: seq<byte>)
    requires data == [] || |Marked(acc)| >= 5
    ensures !(n <= MAX_TAG && Marked(acc) + data == Octets(n) + rest)
  {
    var marked, m := Marked(acc), |Marked(n / 128)|;
    AllMarked(acc);
    assert (Octets(n) + rest)[m] == n % 128;
    assert forall j | 0 <= j < |marked| :: (marked + data)[j] == marked[j];
    if n <= MAX_TAG {
      FewMarked(n / 128);
    }
  }

  lemma {:induction false} FirstDigit(n: nat)
    requires n > 0
    ensures Marked(n) != [] && Marked(n)[0] > 128
  {
    if n >= 128 {
      FirstDigit(n / 128);
    }
  }

  /** A shortest form does not begin with the marked zero. */
  lemma ZeroIsNotFirst(data: seq<byte>, n: nat, rest: seq<byte>)
    requires data != [] && data[0] == 128
    ensures data != Octets(n) + rest
  {
    if n / 128 > 0 {
      FirstDigit(n / 128);
    }
    assert (Octets(n) + rest)[0] == Octets(n)[0];
  }

  /** A number is read from the front of some bytes exactly if it is small enough and its octets stand
      there. */
  lemma ReadNumberIff(data: seq<byte>, n: nat, rest: seq<byte>)
    ensures ReadDigits(data, 0, 0) == Ok((n, rest)) <==> n <= MAX_TAG && data == Octets(n) + rest
  {
    Empty(data);
    DigitsIff(data, 0, 0, n, rest);
  }
}

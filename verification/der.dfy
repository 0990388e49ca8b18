/** The Distinguished Encoding Rules of X.690 for what a subject alternative name needs: identifier
    octets (section 8.1.2), definite lengths in their shortest form (sections 8.1.3 and 10.1), and
    sequences of such values. */
module Der {
  import opened Wrappers
  import opened Seqs
  import opened Bytes
  import opened Base128

  /** Class, constructed flag, tag and contents of one encoded value. */
  datatype Tlv = Tlv(cls: nat, compound: bool, tag: nat, bytes: seq<byte>)

  /** Contents the reading library accepts are shorter than this (encoding/asn1 in Go). */
  const READ_LIMIT: nat := 0x8000_0000

  predicate WellFormed(t: Tlv) {
    t.cls < 4 && t.tag <= MAX_TAG
  }

  predicate Readable(t: Tlv) {
    WellFormed(t) && |t.bytes| < READ_LIMIT
  }

  // ---------- writing ----------

  /** Short form below 128; otherwise the number of length octets, then the length. The reserved
      octet 255 stands for lengths no slice can have. */
  function EncodeLength(n: nat): (r: seq<byte>)
    ensures |r| > 0
  {
    if n < 128 then [n]
    else
      var ds := Digits(n);
      if |ds| <= 126 then [128 + |ds|] + ds else [255]
  }

  /** Class, flag and a tag below 31, or 31. */
  function Leading(t: Tlv): byte
    requires WellFormed(t)
  {
    64 * t.cls + (if t.compound then 32 else 0) + if t.tag < 31 then t.tag else 31
  }

  function Identifier(t: Tlv): (r: seq<byte>)
    requires WellFormed(t)
    ensures |r| > 0
  {
    [Leading(t)] + if t.tag < 31 then [] else Octets(t.tag)
  }

  function Encode(t: Tlv): (r: seq<byte>)
    requires WellFormed(t)
    ensures |r| > |t.bytes|
  {
    Identifier(t) + EncodeLength(|t.bytes|) + t.bytes
  }

  function EncodeAll(ts: seq<Tlv>): seq<byte>
    requires forall k | 0 <= k < |ts| :: WellFormed(ts[k])
  {
    if ts == [] then [] else Encode(ts[0]) + EncodeAll(ts[1..])
  }

  // ---------- reading ----------

  datatype DerError =
    | Truncated
    | BadTag(tagError: TagError)
    | IndefiniteLength
    | ReservedLength
    | LeadingZeros
    | NonMinimalLength
    | TooLong

  /** The length at the front of `data` and what follows it. */
  function ReadLength(data: seq<byte>): Outcome<(nat, seq<byte>), DerError> {
    if data == [] then Err(Truncated)
    else if data[0] < 128 then Ok((data[0], data[1..]))
    else
      var n := data[0] - 128;
      if n == 0 then Err(IndefiniteLength)
      else if n == 127 then Err(ReservedLength)
      else if |data| < 1 + n then Err(Truncated)
      else
        var ds := data[1..1 + n];
        if ds[0] == 0 then Err(LeadingZeros)
        else if Value(ds) >= READ_LIMIT then Err(TooLong)
        else if Value(ds) < 128 then Err(NonMinimalLength)
        else Ok((Value(ds), data[1 + n..]))
  }

  /** The tag at the front of `data`, after the leading octet `b`, and what follows it. */
  function ReadTag(b: byte, data: seq<byte>): (r: Outcome<(nat, seq<byte>), DerError>)
    ensures r.Ok? ==> |r.value.1| <= |data|
  {
    if b % 32 != 31 then Ok((b % 32, data))
    else
      match ReadDigits(data, 0, 0)
      case Err(e) => Err(BadTag(e))
      case Panic => Panic
      case Ok((tag, rest)) => if tag < 31 then Err(BadTag(NonMinimalTag)) else Ok((tag, rest))
  }

  /** `asn1.Unmarshal` into a raw value: one value and the bytes after it. */
  function Read(data: seq<byte>): (r: Outcome<(Tlv, seq<byte>), DerError>)
    ensures r.Ok? ==> |r.value.1| < |data|
  {
    if data == [] then Err(Truncated)
    else
      match ReadTag(data[0], data[1..])
      case Err(e) => Err(e)
      case Panic => Panic
      case Ok((tag, next)) =>
        match ReadLength(next)
        case Err(e) => Err(e)
        case Panic => Panic
        case Ok((n, after)) =>
          if |after| < n then Err(Truncated)
          else Ok((Tlv(data[0] / 64, data[0] / 32 % 2 == 1, tag, after[..n]), after[n..]))
  }

  function ReadAll(data: seq<byte>): Outcome<seq<Tlv>, DerError>
    decreases |data|
  {
    if data == [] then Ok([])
    else
      match Read(data)
      case Err(e) => Err(e)
      case Panic => Panic
      case Ok((t, rest)) =>
        match ReadAll(rest)
        case Err(e) => Err(e)
        case Panic => Panic
        case Ok(ts) => Ok([t] + ts)
  }

  // ---------- reading inverts writing, both ways ----------

  /** Lengths below the limit, and only those, are read back; and only shortest forms are read. */
  lemma ReadLengthIff(data: seq<byte>, n: nat, rest: seq<byte>)
    ensures ReadLength(data) == Ok((n, rest)) <==> n < READ_LIMIT && data == EncodeLength(n) + rest
  {
    if n < READ_LIMIT && data == EncodeLength(n) + rest {
      LengthIsRead(n, rest);
    }
    if ReadLength(data) == Ok((n, rest)) {
      if data[0] < 128 {
        assert data == [data[0]] + data[1..];
      } else {
        var ds := data[1..1 + (data[0] - 128)];
        DigitsOfValue(ds);
        LimitDigits(n);
        assert data == [data[0]] + ds + rest;
      }
    }
  }

  lemma LimitDigits(n: nat)
    requires n < READ_LIMIT
    ensures |Digits(n)| <= 4
  {
    assert Pow256(0) == 1 && Pow256(1) == 256 && Pow256(2) == 0x1_0000 && Pow256(3) == 0x100_0000
        && Pow256(4) == 0x1_0000_0000;
    DigitsLength(n, 4);
  }

  lemma LengthIsRead(n: nat, rest: seq<byte>)
    requires n < READ_LIMIT
    ensures ReadLength(EncodeLength(n) + rest) == Ok((n, rest))
  {
    var data := EncodeLength(n) + rest;
    if n < 128 {
      assert data[1..] == rest;
    } else {
      LimitDigits(n);
      ValueOfDigits(n);
      var ds := Digits(n);
      assert data == [128 + |ds|] + (ds + rest);
      assert data[1..1 + |ds|] == ds;
      assert data[1 + |ds|..] == rest;
    }
  }

  lemma LeadingIff(b: byte, t: Tlv)
    requires WellFormed(t)
    ensures b == Leading(t) <==>
              b / 64 == t.cls && (b / 32 % 2 == 1) == t.compound && b % 32 == if t.tag < 31 then t.tag else 31
  {
    var high, middle := b / 64, b / 32 % 2;
    assert b == 64 * high + 32 * middle + b % 32;
  }

  /** What follows the leading octet of a tag. */
  lemma ReadTagIff(b: byte, data: seq<byte>, tag: nat, rest: seq<byte>)
    ensures ReadTag(b, data) == Ok((tag, rest)) <==>
              if b % 32 != 31 then tag == b % 32 && data == rest
              else 31 <= tag <= MAX_TAG && data == Octets(tag) + rest
  {
    ReadNumberIff(data, tag, rest);
  }

  lemma EncodedParts(t: Tlv, rest: seq<byte>)
    requires WellFormed(t)
    ensures var data, next := Encode(t) + rest, EncodeLength(|t.bytes|) + (t.bytes + rest);
            data[0] == Leading(t) && data[1..] == (if t.tag < 31 then [] else Octets(t.tag)) + next
  {}

  lemma EncodedIsRead(t: Tlv, rest: seq<byte>)
    requires Readable(t)
    ensures Read(Encode(t) + rest) == Ok((t, rest))
  {
    var data, next := Encode(t) + rest, EncodeLength(|t.bytes|) + (t.bytes + rest);
    EncodedParts(t, rest);
    LeadingIff(data[0], t);
    Empty(next);
    ReadTagIff(data[0], data[1..], t.tag, next);
    LengthIsRead(|t.bytes|, t.bytes + rest);
    Cut(t.bytes, rest);
  }

  lemma ReadIsEncoded(data: seq<byte>, t: Tlv, rest: seq<byte>)
    requires Read(data) == Ok((t, rest))
    ensures Readable(t) && data == Encode(t) + rest
  {
    var (tag, next) := ReadTag(data[0], data[1..]).value;
    var (n, after) := ReadLength(next).value;
    ReadTagIff(data[0], data[1..], tag, next);
    ReadLengthIff(next, n, after);
    LeadingIff(data[0], t);
    TakeDrop(after, n);
    EncodedParts(t, rest);
    Empty(next);
    SameHeadTail(data, Encode(t) + rest);
  }

  /** The one value read from the front of some bytes is the one whose encoding stands there. */
  lemma ReadIff(data: seq<byte>, t: Tlv, rest: seq<byte>)
    ensures Read(data) == Ok((t, rest)) <==> Readable(t) && data == Encode(t) + rest
  {
    if Readable(t) {
      EncodedIsRead(t, rest);
    }
    if Read(data) == Ok((t, rest)) {
      ReadIsEncoded(data, t, rest);
    }
  }

  /** Contents at or beyond the limit are written but never read. */
  lemma TooLongIsRefused(t: Tlv, rest: seq<byte>)
    requires WellFormed(t) && |t.bytes| >= READ_LIMIT
    ensures Read(Encode(t) + rest).Err?
  {
    var n, data := |t.bytes|, Encode(t) + rest;
    var ds, next := Digits(n), EncodeLength(n) + (t.bytes + rest);
    EncodedParts(t, rest);
    LeadingIff(data[0], t);
    Empty(next);
    ReadTagIff(data[0], data[1..], t.tag, next);
    if |ds| <= 126 {
      ValueOfDigits(n);
      assert next[1..1 + |ds|] == ds;
    }
  }

  /** What the read loop accepts, value by value to the last byte, are exactly the concatenations of
      encodings; so a value list has one encoding and an encoding one value list. */
  lemma {:induction false} ReadAllIff(data: seq<byte>, ts: seq<Tlv>)
    ensures ReadAll(data) == Ok(ts) <==>
            (forall k | 0 <= k < |ts| :: Readable(ts[k])) && data == EncodeAll(ts)
    decreases |data|
  {
    if data != [] && Read(data).Ok? {
      var (t, rest) := Read(data).value;
      ReadIff(data, t, rest);
      if ts != [] {
        ReadAllIff(rest, ts[1..]);
        assert ts == [ts[0]] + ts[1..];
      }
    }
    if (forall k | 0 <= k < |ts| :: Readable(ts[k])) && data == EncodeAll(ts) && ts != [] {
      ReadIff(data, ts[0], EncodeAll(ts[1..]));
    }
  }
}

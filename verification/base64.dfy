/** Base64 with padding (RFC 4648, section 4), as Go's `base64.StdEncoding` writes and reads it. */
module Base64 {
  import opened Wrappers
  import opened Seqs
  import opened Bytes

  const PAD := '='

  function Digit(v: nat): char
    requires v < 64
  {
    if v < 26 then ('A' as int + v) as char
    else if v < 52 then ('a' as int + v - 26) as char
    else if v < 62 then ('0' as int + v - 52) as char
    else if v == 62 then '+'
    else '/'
  }

  function DigitValue(c: char): (v: Option<nat>)
    ensures v.Some? ==> v.value < 64
  {
    if 'A' <= c <= 'Z' then Some(c as int - 'A' as int)
    else if 'a' <= c <= 'z' then Some(c as int - 'a' as int + 26)
    else if '0' <= c <= '9' then Some(c as int - '0' as int + 52)
    else if c == '+' then Some(62)
    else if c == '/' then Some(63)
    else None
  }

  lemma DigitValueOf(v: nat)
    requires v < 64
    ensures DigitValue(Digit(v)) == Some(v)
  {}

  /** The four digits of three bytes. */
  function Group(x: byte, y: byte, z: byte): (s: string)
    ensures |s| == 4
  {
    [Digit(x / 4), Digit(x % 4 * 16 + y / 16), Digit(y % 16 * 4 + z / 64), Digit(z % 64)]
  }

  /** A last group of fewer bytes is padded. */
  function Encode(bytes: seq<byte>): (s: string)
    decreases |bytes|
  {
    if bytes == [] then ""
    else if |bytes| == 1 then Group(bytes[0], 0, 0)[..2] + [PAD, PAD]
    else if |bytes| == 2 then Group(bytes[0], bytes[1], 0)[..3] + [PAD]
    else Group(bytes[0], bytes[1], bytes[2]) + Encode(bytes[3..])
  }

  function FirstByte(a: nat, b: nat): byte
    requires a < 64 && b < 64
  {
    4 * a + b / 16
  }

  function SecondByte(b: nat, c: nat): byte
    requires b < 64 && c < 64
  {
    16 * (b % 16) + c / 4
  }

  function ThirdByte(c: nat, d: nat): byte
    requires c < 64 && d < 64
  {
    64 * (c % 4) + d
  }

  /** Groups of four; only the last may be padded, and the bits that padding leaves over are ignored. */
  function Decode(s: string): Option<seq<byte>>
    decreases |s|
  {
    if s == "" then Some([])
    else if |s| < 4 then None
    else
      match (DigitValue(s[0]), DigitValue(s[1]))
      case (Some(a), Some(b)) => DecodeRest(a, b, s)
      case _ => None
  }

  function DecodeRest(a: nat, b: nat, s: string): Option<seq<byte>>
    requires a < 64 && b < 64 && |s| >= 4
    decreases |s|, 0
  {
    if |s| == 4 && s[2] == PAD && s[3] == PAD then Some([FirstByte(a, b)])
    else
      match DigitValue(s[2])
      case None => None
      case Some(c) =>
        if |s| == 4 && s[3] == PAD then Some([FirstByte(a, b), SecondByte(b, c)])
        else
          match (DigitValue(s[3]), Decode(s[4..]))
          case (Some(d), Some(rest)) => Some([FirstByte(a, b), SecondByte(b, c), ThirdByte(c, d)] + rest)
          case _ => None
  }

  lemma BytesOfGroup(x: byte, y: byte, z: byte)
    ensures FirstByte(x / 4, x % 4 * 16 + y / 16) == x
    ensures SecondByte(x % 4 * 16 + y / 16, y % 16 * 4 + z / 64) == y
    ensures ThirdByte(y % 16 * 4 + z / 64, z % 64) == z
  {}

  lemma GroupValues(x: byte, y: byte, z: byte)
    ensures var s := Group(x, y, z);
            && DigitValue(s[0]) == Some(x / 4) && DigitValue(s[1]) == Some(x % 4 * 16 + y / 16)
            && DigitValue(s[2]) == Some(y % 16 * 4 + z / 64) && DigitValue(s[3]) == Some(z % 64)
  {
    DigitValueOf(x / 4);
    DigitValueOf(x % 4 * 16 + y / 16);
    DigitValueOf(y % 16 * 4 + z / 64);
    DigitValueOf(z % 64);
  }

  lemma DecodeGroup(x: byte, y: byte, z: byte, rest: string)
    requires Decode(rest).Some?
    ensures Decode(Group(x, y, z) + rest) == Some([x, y, z] + Decode(rest).value)
  {
    var s := Group(x, y, z);
    GroupValues(x, y, z);
    BytesOfGroup(x, y, z);
    Cut(s, rest);
    var all := s + rest;
    assert all[0] == s[0] && all[1] == s[1] && all[2] == s[2] && all[3] == s[3];
    assert s[3] != PAD;
  }

  lemma DecodePadded(s: string, a: nat, b: nat)
    requires a < 64 && b < 64
    requires |s| == 4 && DigitValue(s[0]) == Some(a) && DigitValue(s[1]) == Some(b) && s[3] == PAD
    ensures s[2] == PAD ==> Decode(s) == Some([FirstByte(a, b)])
    ensures DigitValue(s[2]).Some? ==>
              Decode(s) == Some([FirstByte(a, b), SecondByte(b, DigitValue(s[2]).value)])
  {}

  lemma DecodeOne(x: byte)
    ensures Decode(Group(x, 0, 0)[..2] + [PAD, PAD]) == Some([x])
  {
    var group := Group(x, 0, 0);
    var s := group[..2] + [PAD, PAD];
    GroupValues(x, 0, 0);
    BytesOfGroup(x, 0, 0);
    assert s[0] == group[0] && s[1] == group[1] && s[2] == s[3] == PAD;
    DecodePadded(s, x / 4, x % 4 * 16);
  }

  lemma DecodeTwo(x: byte, y: byte)
    ensures Decode(Group(x, y, 0)[..3] + [PAD]) == Some([x, y])
  {
    var group := Group(x, y, 0);
    var s := group[..3] + [PAD];
    GroupValues(x, y, 0);
    BytesOfGroup(x, y, 0);
    assert s[0] == group[0] && s[1] == group[1] && s[2] == group[2] && s[3] == PAD;
    DecodePadded(s, x / 4, x % 4 * 16 + y / 16);
  }

  /** Decoding undoes encoding. */
  lemma {:induction false} DecodeEncode(bytes: seq<byte>)
    ensures Decode(Encode(bytes)) == Some(bytes)
    decreases |bytes|
  {
    if |bytes| > 2 {
      DecodeEncode(bytes[3..]);
      DecodeGroup(bytes[0], bytes[1], bytes[2], Encode(bytes[3..]));
      assert bytes == [bytes[0], bytes[1], bytes[2]] + bytes[3..];
    } else if |bytes| == 2 {
      DecodeTwo(bytes[0], bytes[1]);
      assert bytes == [bytes[0], bytes[1]];
    } else if |bytes| == 1 {
      DecodeOne(bytes[0]);
      assert bytes == [bytes[0]];
    }
  }

  predicate IsDigit(c: char) {
    DigitValue(c).Some? || c == PAD
  }

  lemma {:induction false} EncodedDigits(bytes: seq<byte>)
    ensures forall k | 0 <= k < |Encode(bytes)| :: IsDigit(Encode(bytes)[k])
    decreases |bytes|
  {
    if |bytes| > 2 {
      EncodedDigits(bytes[3..]);
      GroupValues(bytes[0], bytes[1], bytes[2]);
    } else if bytes != [] {
      GroupValues(bytes[0], if |bytes| == 2 then bytes[1] else 0, 0);
    }
  }

  /** The digits of section 4 of RFC 4648, in order. */
  lemma DigitIs(v: nat)
    requires v < 64
    ensures Digit(v) == ("ABCDEFGHIJKLMNOPQRSTUVWXYZ" + "abcdefghijklmnopqrstuvwxyz" + "0123456789+/")[v]
  {}
}

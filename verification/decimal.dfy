/** Decimal numbers as Go's `strconv` writes and reads them. */
module Decimal {
  import opened Wrappers
  import opened Seqs

  const MAX_UINT32 := 0xFFFF_FFFF
  const MAX_INT32 := 0x7FFF_FFFF

  // ---------- writing ----------

  function Digit(d: nat): char
    requires d < 10
  {
    ('0' as int + d) as char
  }

  function Digits(n: nat): (s: string)
    ensures s != "" && '0' <= s[0] <= '9'
  {
    if n < 10 then [Digit(n)] else Digits(n / 10) + [Digit(n % 10)]
  }

  function Itoa(n: int): (s: string)
    ensures s != ""
  {
    if n < 0 then "-" + Digits(-n) else Digits(n)
  }

  // ---------- reading ----------

  /** The digits after a number read so far; reading stops at the first number beyond 32 bits, and None is
      a syntax error before that. */
  function ReadDigits(s: string, soFar: nat): Option<nat>
    requires soFar <= MAX_UINT32
  {
    if s == "" then Some(soFar)
    else if !('0' <= s[0] <= '9') then None
    else
      var n := 10 * soFar + (s[0] as int - '0' as int);
      if n > MAX_UINT32 then Some(MAX_UINT32) else ReadDigits(s[1..], n)
  }

  /** The nearest number of 32 bits. */
  function Clamp(n: int): int {
    if n > MAX_INT32 then MAX_INT32 else if n < -MAX_INT32 - 1 then -MAX_INT32 - 1 else n
  }

  /** `strconv.ParseInt(s, 10, 32)` with its error dropped: zero for what is no number, and the nearest
      number for one beyond 32 bits. */
  function ParseInt32(s: string): int {
    if s == "" then 0
    else
      var signed := s[0] == '-' || s[0] == '+';
      var digits := if signed then s[1..] else s;
      if digits == "" then 0
      else
        match ReadDigits(digits, 0)
        case None => 0
        case Some(n) => if s[0] == '-' then Clamp(0 - n) else Clamp(n)
  }

  // ---------- reading what was written ----------

  function Saturated(n: nat): nat {
    if n > MAX_UINT32 then MAX_UINT32 else n
  }

  lemma {:induction false} ReadOneMore(s: string, soFar: nat, d: nat)
    requires soFar <= MAX_UINT32 && d < 10 && ReadDigits(s, soFar).Some?
    ensures ReadDigits(s + [Digit(d)], soFar) == Some(Saturated(10 * ReadDigits(s, soFar).value + d))
  {
    var all := s + [Digit(d)];
    if s == "" {
      Empty([Digit(d)]);
      assert all[1..] == "";
    } else {
      assert all[0] == s[0] && all[1..] == s[1..] + [Digit(d)];
      var n := 10 * soFar + (s[0] as int - '0' as int);
      if n <= MAX_UINT32 {
        ReadOneMore(s[1..], n, d);
      }
    }
  }

  lemma {:induction false} ReadWritten(n: nat)
    ensures ReadDigits(Digits(n), 0) == Some(Saturated(n))
  {
    if n >= 10 {
      ReadWritten(n / 10);
      ReadOneMore(Digits(n / 10), 0, n % 10);
    }
  }

  lemma {:induction false} DigitsApart(a: nat, b: nat)
    requires a != b
    ensures Digits(a) != Digits(b)
  {
    if a >= 10 && b >= 10 {
      if a / 10 != b / 10 {
        DigitsApart(a / 10, b / 10);
      }
      Cut(Digits(a / 10), [Digit(a % 10)]);
      Cut(Digits(b / 10), [Digit(b % 10)]);
    }
  }

  /** No two numbers are written alike. */
  lemma ItoaApart(a: int, b: int)
    requires a != b
    ensures Itoa(a) != Itoa(b)
  {
    if a < 0 && b < 0 {
      DigitsApart(-a, -b);
      Cut("-", Digits(-a));
      Cut("-", Digits(-b));
    } else if a >= 0 && b >= 0 {
      DigitsApart(a, b);
    } else {
      assert Itoa(if a < 0 then a else b)[0] == '-';
    }
  }

  /** A written number is read as the nearest one of 32 bits. */
  lemma ParseWritten(n: int)
    ensures ParseInt32(Itoa(n)) == Clamp(n)
  {
    var m: nat := if n < 0 then -n else n;
    ReadWritten(m);
    if n < 0 {
      Cut("-", Digits(m));
    }
  }

  /** Digits are written from the highest to the lowest, without a leading zero. */
  lemma DigitsAre(n: nat, d: nat)
    requires d < 10
    ensures Digits(d) == ["0123456789"[d]]
    ensures n > 0 ==> Digits(10 * n + d) == Digits(n) + ["0123456789"[d]]
  {}
}

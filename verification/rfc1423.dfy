/** pkg/util/pemUtil.go: password-encrypted PEM blocks in the manner of RFC 1423. MD5 and the block
    ciphers are parameters: any 16-byte digest, and for each algorithm and key any permutation of
    the blocks. */
module Rfc1423 {
  import opened Wrappers
  import opened Seqs
  import opened Text
  import opened Bytes
  import opened PemText

  // ---------- bytes ----------

  function Pow2(n: nat): (r: nat)
    ensures r > 0
  {
    if n == 0 then 1 else 2 * Pow2(n - 1)
  }

  /** Exclusive or of two n-bit numbers, bit by bit. */
  function XorBits(a: nat, b: nat, n: nat): (r: nat)
    requires a < Pow2(n) && b < Pow2(n)
    ensures r < Pow2(n)
  {
    if n == 0 then 0 else (a + b) % 2 + 2 * XorBits(a / 2, b / 2, n - 1)
  }

  lemma {:induction false} XorBitsCancels(a: nat, b: nat, n: nat)
    requires a < Pow2(n) && b < Pow2(n)
    ensures XorBits(XorBits(a, b, n), b, n) == a
  {
    if n > 0 {
      var q := XorBits(a / 2, b / 2, n - 1);
      var r := (a + b) % 2 + 2 * q;
      assert r / 2 == q;
      assert (r + b) % 2 == a % 2;
      XorBitsCancels(a / 2, b / 2, n - 1);
    }
  }

  function XorByte(a: byte, b: byte): byte {
    assert Pow2(8) == 256;
    XorBits(a, b, 8)
  }

  function Xor(a: seq<byte>, b: seq<byte>): (r: seq<byte>)
    requires |a| == |b|
    ensures |r| == |a|
  {
    seq(|a|, k requires 0 <= k < |a| => XorByte(a[k], b[k]))
  }

  lemma XorCancels(a: seq<byte>, b: seq<byte>)
    requires |a| == |b|
    ensures Xor(Xor(a, b), b) == a
  {
    assert Pow2(8) == 256;
    forall k | 0 <= k < |a| ensures XorByte(XorByte(a[k], b[k]), b[k]) == a[k] {
      XorBitsCancels(a[k], b[k], 8);
    }
  }

  // ---------- algorithms ----------

  datatype Algo = Algo(cipher: int, name: string, keySize: nat, blockSize: nat)

  const DES := Algo(1, "DES-CBC", 8, 8)
  const TRIPLE_DES := Algo(2, "DES-EDE3-CBC", 24, 8)
  const AES128 := Algo(3, "AES-128-CBC", 16, 16)
  const AES192 := Algo(4, "AES-192-CBC", 24, 16)
  const AES256 := Algo(5, "AES-256-CBC", 32, 16)

  const ALGOS: seq<Algo> := [DES, TRIPLE_DES, AES128, AES192, AES256]

  function CipherByName(name: string): Option<Algo> {
    if name == DES.name then Some(DES)
    else if name == TRIPLE_DES.name then Some(TRIPLE_DES)
    else if name == AES128.name then Some(AES128)
    else if name == AES192.name then Some(AES192)
    else if name == AES256.name then Some(AES256)
    else None
  }

  function CipherByKey(key: int): Option<Algo> {
    if 1 <= key <= 5 then Some(ALGOS[key - 1]) else None
  }

  lemma AlgosAreDistinct(key: int)
    requires 1 <= key <= 5
    ensures CipherByKey(key).value.cipher == key
    ensures CipherByName(CipherByKey(key).value.name) == CipherByKey(key)
    ensures ',' !in CipherByKey(key).value.name
    ensures CipherByKey(key).value.blockSize == 8 || CipherByKey(key).value.blockSize == 16
  {
    assert DES.name[4] == 'C' && TRIPLE_DES.name[4] == 'E';
    assert AES128.name[4] == '1' && AES192.name[4] == '1' && AES256.name[4] == '2';
    assert AES128.name[5] == '2' && AES192.name[5] == '9';
    assert DES.name[0] == 'D' && TRIPLE_DES.name[0] == 'D' && AES128.name[0] == AES192.name[0] == AES256.name[0] == 'A';
  }

  // ---------- primitives ----------

  /** `enc` and `dec` take the algorithm, the key and a block. */
  datatype Primitives = Primitives(
    md5: seq<byte> -> seq<byte>,
    enc: (Algo, seq<byte>, seq<byte>) -> seq<byte>,
    dec: (Algo, seq<byte>, seq<byte>) -> seq<byte>)

  /** The digest has 16 bytes; under every key encryption and decryption of a block are inverse. */
  ghost predicate Sound(p: Primitives) {
    && (forall x: seq<byte> :: |p.md5(x)| == 16)
    && (forall a: Algo, key: seq<byte>, block: seq<byte> | |block| == a.blockSize ::
          |p.enc(a, key, block)| == a.blockSize && p.dec(a, key, p.enc(a, key, block)) == block)
    && (forall a: Algo, key: seq<byte>, block: seq<byte> | |block| == a.blockSize ::
          |p.dec(a, key, block)| == a.blockSize && p.enc(a, key, p.dec(a, key, block)) == block)
  }

  // ---------- key derivation ----------

  /** D1 = H(password, salt), and each later digest hashes the one before it first. */
  function Digest(p: Primitives, n: nat, password: seq<byte>, salt: seq<byte>): seq<byte> {
    if n == 0 then [] else p.md5(Digest(p, n - 1, password, salt) + password + salt)
  }

  /** D1, D2, ..., Dn one after the other. */
  function KeyStream(p: Primitives, n: nat, password: seq<byte>, salt: seq<byte>): seq<byte> {
    if n == 0 then [] else KeyStream(p, n - 1, password, salt) + Digest(p, n, password, salt)
  }

  function DigestsFor(size: nat): nat {
    (size + 15) / 16
  }

  lemma KeyStreamLength(p: Primitives, n: nat, password: seq<byte>, salt: seq<byte>)
    requires Sound(p)
    ensures |KeyStream(p, n, password, salt)| == 16 * n
  {}

  lemma KeyStreamPrefix(p: Primitives, m: nat, n: nat, password: seq<byte>, salt: seq<byte>)
    requires m <= n
    ensures KeyStream(p, m, password, salt) <= KeyStream(p, n, password, salt)
  {}

  function DerivedKey(p: Primitives, size: nat, password: seq<byte>, salt: seq<byte>): (key: seq<byte>)
    requires Sound(p)
    ensures |key| == size
  {
    KeyStreamLength(p, DigestsFor(size), password, salt);
    KeyStream(p, DigestsFor(size), password, salt)[..size]
  }

  /** For one password and salt, a shorter key is a prefix of a longer one. */
  lemma ShorterKeyIsPrefix(p: Primitives, m: nat, n: nat, password: seq<byte>, salt: seq<byte>)
    requires Sound(p) && m <= n
    ensures DerivedKey(p, m, password, salt) <= DerivedKey(p, n, password, salt)
  {
    KeyStreamPrefix(p, DigestsFor(m), DigestsFor(n), password, salt);
    KeyStreamLength(p, DigestsFor(m), password, salt);
    KeyStreamLength(p, DigestsFor(n), password, salt);
  }

  /** Go's `copy(out[i:], from)`: as many bytes as fit. */
  method Copy(out: array<byte>, i: nat, from: seq<byte>)
    requires i <= out.Length
    modifies out
    ensures var m := if |from| < out.Length - i then |from| else out.Length - i;
            out[..i + m] == old(out[..i]) + from[..m]
  {
    var m := if |from| < out.Length - i then |from| else out.Length - i;
    for j := 0 to m
      invariant out[..i + j] == old(out[..i]) + from[..j]
    {
      out[i + j] := from[j];
      OneMore(from, j);
      OneMore(out[..], i + j);
      assert out[..i + j + 1] == out[..i + j] + [from[j]];
    }
  }

  method DeriveKey(p: Primitives, keySize: nat, password: seq<byte>, salt: seq<byte>) returns (out: array<byte>)
    requires Sound(p)
    ensures fresh(out) && out[..] == DerivedKey(p, keySize, password, salt)
  {
    out := new byte[keySize](_ => 0);
    var digest: seq<byte> := [];
    ghost var n: nat := 0;
    var i := 0;
    while i < out.Length
      invariant i == 16 * n && n <= DigestsFor(keySize)
      invariant digest == Digest(p, n, password, salt)
      invariant |KeyStream(p, n, password, salt)| == 16 * n
      invariant out[..if i < keySize then i else keySize]
             == KeyStream(p, n, password, salt)[..if i < keySize then i else keySize]
    {
      digest := p.md5(digest + password + salt);
      assert digest == Digest(p, n + 1, password, salt);
      ghost var before, stream := out[..i], KeyStream(p, n + 1, password, salt);
      assert stream == before + digest;
      Copy(out, i, digest);
      ghost var m := if |digest| < out.Length - i then |digest| else out.Length - i;
      assert stream[..i + m] == before + digest[..m];
      i := i + |digest|;
      n := n + 1;
    }
    assert out[..] == out[..keySize];
  }

  // ---------- cipher block chaining ----------

  /** The algorithms' block sizes, and data cut into whole blocks. */
  predicate WholeBlocks(a: Algo, data: seq<byte>) {
    (a.blockSize == 8 || a.blockSize == 16) && |data| % a.blockSize == 0
  }

  lemma DropBlock(a: Algo, data: seq<byte>)
    requires WholeBlocks(a, data) && data != []
    ensures |data| >= a.blockSize && WholeBlocks(a, data[a.blockSize..])
  {}

  function CbcEncrypt(p: Primitives, a: Algo, key: seq<byte>, iv: seq<byte>, data: seq<byte>): (r: seq<byte>)
    requires Sound(p) && WholeBlocks(a, data) && |iv| == a.blockSize
    ensures |r| == |data|
    decreases |data|
  {
    if data == [] then []
    else
      DropBlock(a, data);
      var c := p.enc(a, key, Xor(data[..a.blockSize], iv));
      c + CbcEncrypt(p, a, key, c, data[a.blockSize..])
  }

  function CbcDecrypt(p: Primitives, a: Algo, key: seq<byte>, iv: seq<byte>, data: seq<byte>): (r: seq<byte>)
    requires Sound(p) && WholeBlocks(a, data) && |iv| == a.blockSize
    ensures |r| == |data|
    decreases |data|
  {
    if data == [] then []
    else
      DropBlock(a, data);
      var c := data[..a.blockSize];
      Xor(p.dec(a, key, c), iv) + CbcDecrypt(p, a, key, c, data[a.blockSize..])
  }

  lemma {:induction false} DecryptEncrypt(p: Primitives, a: Algo, key: seq<byte>, iv: seq<byte>, data: seq<byte>)
    requires Sound(p) && WholeBlocks(a, data) && |iv| == a.blockSize
    ensures CbcDecrypt(p, a, key, iv, CbcEncrypt(p, a, key, iv, data)) == data
    decreases |data|
  {
    if data != [] {
      DropBlock(a, data);
      var n := a.blockSize;
      var c := p.enc(a, key, Xor(data[..n], iv));
      var whole := CbcEncrypt(p, a, key, iv, data);
      assert whole[..n] == c && whole[n..] == CbcEncrypt(p, a, key, c, data[n..]);
      DecryptEncrypt(p, a, key, c, data[n..]);
      XorCancels(data[..n], iv);
    }
  }

  lemma {:induction false} EncryptDecrypt(p: Primitives, a: Algo, key: seq<byte>, iv: seq<byte>, data: seq<byte>)
    requires Sound(p) && WholeBlocks(a, data) && |iv| == a.blockSize
    ensures CbcEncrypt(p, a, key, iv, CbcDecrypt(p, a, key, iv, data)) == data
    decreases |data|
  {
    if data != [] {
      DropBlock(a, data);
      var n := a.blockSize;
      var c := data[..n];
      var whole := CbcDecrypt(p, a, key, iv, data);
      assert whole[..n] == Xor(p.dec(a, key, c), iv) && whole[n..] == CbcDecrypt(p, a, key, c, data[n..]);
      EncryptDecrypt(p, a, key, c, data[n..]);
      XorCancels(p.dec(a, key, c), iv);
    }
  }

  /** Writes one block into a buffer. */
  method WriteBlock(buf: array<byte>, i: nat, c: seq<byte>)
    requires i + |c| <= buf.Length
    modifies buf
    ensures buf[..] == old(buf[..i]) + c + old(buf[i + |c|..])
  {
    forall k | 0 <= k < |c| {
      buf[i + k] := c[k];
    }
  }

  lemma EncryptStep(p: Primitives, a: Algo, key: seq<byte>, iv: seq<byte>, done: seq<byte>, rest: seq<byte>)
    requires Sound(p) && WholeBlocks(a, rest) && |iv| == a.blockSize && rest != []
    ensures var n := a.blockSize;
            && |rest| >= n && WholeBlocks(a, rest[n..])
            && var c := p.enc(a, key, Xor(rest[..n], iv));
            && |c| == n
            && done + CbcEncrypt(p, a, key, iv, rest) == (done + c) + CbcEncrypt(p, a, key, c, rest[n..])
  {
    DropBlock(a, rest);
  }

  /** Encrypts a buffer in place, one block at a time. */
  method CryptBlocksInPlace(p: Primitives, a: Algo, key: seq<byte>, iv: seq<byte>, buf: array<byte>)
    requires Sound(p) && WholeBlocks(a, buf[..]) && |iv| == a.blockSize
    modifies buf
    ensures buf[..] == CbcEncrypt(p, a, key, iv, old(buf[..]))
  {
    var n := a.blockSize;
    var chain := iv;
    var i := 0;
    ghost var done: seq<byte>, rest := [], buf[..];
    while i < buf.Length
      invariant buf[..] == done + rest && |done| == i
      invariant WholeBlocks(a, rest) && |chain| == n
      invariant done + CbcEncrypt(p, a, key, chain, rest) == CbcEncrypt(p, a, key, iv, old(buf[..]))
      decreases |rest|
    {
      EncryptStep(p, a, key, chain, done, rest);
      assert buf[i..i + n] == rest[..n];
      assert buf[..i] == done && buf[i + n..] == rest[n..];
      chain := p.enc(a, key, Xor(buf[i..i + n], chain));
      WriteBlock(buf, i, chain);
      done, rest := done + chain, rest[n..];
      i := i + n;
    }
    assert rest == [];
  }

  lemma DecryptStep(p: Primitives, a: Algo, key: seq<byte>, iv: seq<byte>, done: seq<byte>, rest: seq<byte>)
    requires Sound(p) && WholeBlocks(a, rest) && |iv| == a.blockSize && rest != []
    ensures var n := a.blockSize;
            && |rest| >= n && WholeBlocks(a, rest[n..])
            && var c := rest[..n];
            done + CbcDecrypt(p, a, key, iv, rest)
              == (done + Xor(p.dec(a, key, c), iv)) + CbcDecrypt(p, a, key, c, rest[n..])
  {
    DropBlock(a, rest);
  }

  /** Decrypts into a buffer of its own. */
  method DecryptBlocks(p: Primitives, a: Algo, key: seq<byte>, iv: seq<byte>, src: seq<byte>)
    returns (data: array<byte>)
    requires Sound(p) && WholeBlocks(a, src) && |iv| == a.blockSize
    ensures fresh(data) && data[..] == CbcDecrypt(p, a, key, iv, src)
  {
    data := new byte[|src|](_ => 0);
    var n := a.blockSize;
    var chain := iv;
    var i := 0;
    ghost var done: seq<byte> := [];
    assert src[0..] == src;
    while i < |src|
      invariant 0 <= i <= |src| == data.Length && data[..i] == done
      invariant WholeBlocks(a, src[i..]) && |chain| == n
      invariant done + CbcDecrypt(p, a, key, chain, src[i..]) == CbcDecrypt(p, a, key, iv, src)
    {
      DecryptStep(p, a, key, chain, done, src[i..]);
      var c := src[i..i + n];
      assert src[i..][..n] == c && src[i..][n..] == src[i + n..];
      var d := Xor(p.dec(a, key, c), chain);
      WriteBlock(data, i, d);
      done := done + d;
      assert data[..i + n] == done;
      chain := c;
      i := i + n;
    }
    assert data[..] == done;
  }

  // ---------- padding ----------

  function PadLength(blockSize: nat, len: nat): nat
    requires blockSize > 0
  {
    blockSize - len % blockSize
  }

  /** RFC 1423, section 1.1: n bytes of value n fill the last block, always at least one. */
  function Pad(a: Algo, data: seq<byte>): (r: seq<byte>)
    requires a.blockSize == 8 || a.blockSize == 16
    ensures WholeBlocks(a, r) && |r| > 0
  {
    var n: byte := PadLength(a.blockSize, |data|);
    PadLengthFills(a.blockSize, |data|);
    data + seq(n, _ => n)
  }

  lemma PadLengthFills(blockSize: nat, len: nat)
    requires blockSize == 8 || blockSize == 16
    ensures (len + PadLength(blockSize, len)) % blockSize == 0
  {
    FillsEight(len);
    FillsSixteen(len);
  }

  lemma FillsEight(len: nat)
    ensures (len + (8 - len % 8)) % 8 == 0
  {}

  lemma FillsSixteen(len: nat)
    ensures (len + (16 - len % 16)) % 16 == 0
  {}

  datatype PemError =
    | NoDekInfo | MalformedDekInfo | UnknownMode | BadHex | IncorrectIVSize | NotBlockMultiple | InvalidPadding
    | IncorrectPassword | CannotGenerateIV

  function Unpad(a: Algo, data: seq<byte>): Outcome<seq<byte>, PemError>
    requires a.blockSize == 8 || a.blockSize == 16
  {
    if |data| == 0 || |data| % a.blockSize != 0 then Err(InvalidPadding)
    else
      var last := data[|data| - 1];
      if |data| < last || last == 0 || last > a.blockSize then Err(IncorrectPassword)
      else if exists k | |data| - last <= k < |data| :: data[k] != last then Err(IncorrectPassword)
      else Ok(data[..|data| - last])
  }

  /** Exactly the correctly padded texts are unpadded, to what was padded. */
  lemma UnpadIff(a: Algo, data: seq<byte>, x: seq<byte>)
    requires a.blockSize == 8 || a.blockSize == 16
    ensures Unpad(a, data) == Ok(x) <==> data == Pad(a, x)
  {
    if data == Pad(a, x) {
      var n: byte := PadLength(a.blockSize, |x|);
      assert data[|data| - 1] == n;
      assert data[..|x|] == x;
    }
    if Unpad(a, data) == Ok(x) {
      var last := data[|data| - 1];
      assert |x| + last == |data|;
      PadLengthIs(a.blockSize, |x|, last);
      assert data == x + data[|x|..];
      assert data[|x|..] == seq(last, _ => last);
    }
  }

  lemma PadLengthIs(blockSize: nat, len: nat, n: nat)
    requires blockSize == 8 || blockSize == 16
    requires 1 <= n <= blockSize && (len + n) % blockSize == 0
    ensures PadLength(blockSize, len) == n
  {}

  // ---------- hexadecimal ----------

  const HEX_DIGITS := "0123456789abcdef"

  function HexValue(c: char): Option<nat> {
    if '0' <= c <= '9' then Some(c as int - '0' as int)
    else if 'a' <= c <= 'f' then Some(c as int - 'a' as int + 10)
    else if 'A' <= c <= 'F' then Some(c as int - 'A' as int + 10)
    else None
  }

  lemma HexDigitValue(v: nat)
    requires v < 16
    ensures HexValue(HEX_DIGITS[v]) == Some(v)
    ensures HEX_DIGITS[v] != ','
  {}

  function EncodeHex(bytes: seq<byte>): (s: string)
    ensures |s| == 2 * |bytes|
  {
    if bytes == [] then ""
    else [HEX_DIGITS[bytes[0] / 16], HEX_DIGITS[bytes[0] % 16]] + EncodeHex(bytes[1..])
  }

  /** `hex.DecodeString`: pairs of digits of either case. */
  function DecodeHex(s: string): Option<seq<byte>> {
    if s == "" then Some([])
    else if |s| == 1 then None
    else
      match (HexValue(s[0]), HexValue(s[1]), DecodeHex(s[2..]))
      case (Some(hi), Some(lo), Some(rest)) =>
        if hi < 16 && lo < 16 then Some([16 * hi + lo] + rest) else None
      case _ => None
  }

  lemma DecodeHexStep(s: string, bytes: seq<byte>)
    requires |s| >= 2 && bytes != []
    ensures DecodeHex(s) == Some(bytes) <==>
              && HexValue(s[0]) == Some(bytes[0] / 16) && HexValue(s[1]) == Some(bytes[0] % 16)
              && DecodeHex(s[2..]) == Some(bytes[1..])
  {
    HeadTail(bytes);
    if DecodeHex(s).Some? {
      var (hi, lo) := (HexValue(s[0]).value, HexValue(s[1]).value);
      TwoDigits(hi, lo);
      Cut([16 * hi + lo], DecodeHex(s[2..]).value);
    }
  }

  lemma TwoDigits(hi: nat, lo: nat)
    requires lo < 16
    ensures (16 * hi + lo) / 16 == hi && (16 * hi + lo) % 16 == lo
  {}

  lemma {:induction false} DecodeEncodeHex(bytes: seq<byte>)
    ensures DecodeHex(EncodeHex(bytes)) == Some(bytes)
  {
    if bytes != [] {
      var s := EncodeHex(bytes);
      HexDigitValue(bytes[0] / 16);
      HexDigitValue(bytes[0] % 16);
      DecodeEncodeHex(bytes[1..]);
      assert s[2..] == EncodeHex(bytes[1..]);
      DecodeHexStep(s, bytes);
    }
  }

  // ---------- blocks ----------

  function DekInfo(a: Algo, iv: seq<byte>): string {
    a.name + "," + EncodeHex(iv)
  }

  /** The algorithm and initialization vector a block's header names. */
  function ParseDekInfo(b: PemBlock): Outcome<(Algo, seq<byte>), PemError> {
    if "DEK-Info" !in b.headers then Err(NoDekInfo)
    else
      var dek := b.headers["DEK-Info"];
      var idx := Index(dek, ",");
      if idx == -1 then Err(MalformedDekInfo)
      else
        assert idx < |dek| by {
          assert OccursAt(dek, ",", idx);
        }
        match CipherByName(dek[..idx])
        case None => Err(UnknownMode)
        case Some(a) =>
          match DecodeHex(dek[idx + 1..])
          case None => Err(BadHex)
          case Some(iv) => if |iv| != a.blockSize then Err(IncorrectIVSize) else Ok((a, iv))
  }

  lemma ParsedAlgo(b: PemBlock)
    requires ParseDekInfo(b).Ok?
    ensures var (a, iv) := ParseDekInfo(b).value; (a.blockSize == 8 || a.blockSize == 16) && |iv| == a.blockSize
  {}

  lemma DekInfoRoundTrip(key: int, iv: seq<byte>, b: PemBlock)
    requires 1 <= key <= 5 && |iv| == ALGOS[key - 1].blockSize
    requires "DEK-Info" in b.headers && b.headers["DEK-Info"] == DekInfo(ALGOS[key - 1], iv)
    ensures ParseDekInfo(b) == Ok((ALGOS[key - 1], iv))
  {
    AlgosAreDistinct(key);
    var a := ALGOS[key - 1];
    var dek := DekInfo(a, iv);
    assert dek[..|a.name|] == a.name;
    IndexOfChar(dek, ',', |a.name|);
    assert dek[|a.name| + 1..] == EncodeHex(iv);
    DecodeEncodeHex(iv);
  }

  /** The salt is the first eight bytes of the initialization vector. */
  function BlockKey(p: Primitives, a: Algo, iv: seq<byte>, password: seq<byte>): seq<byte>
    requires Sound(p) && |iv| >= 8
  {
    DerivedKey(p, a.keySize, password, iv[..8])
  }

  /** What X509EncryptPEMBlock returns, given the bytes its random source yields. */
  function Encrypted(p: Primitives, random: seq<byte>, typ: string, data: seq<byte>, password: seq<byte>, alg: int)
    : Outcome<PemBlock, PemError>
    requires Sound(p)
  {
    match CipherByKey(alg)
    case None => Err(UnknownMode)
    case Some(a) =>
      if |random| < a.blockSize then Err(CannotGenerateIV)
      else
        var iv := random[..a.blockSize];
        var body := CbcEncrypt(p, a, BlockKey(p, a, iv, password), iv, Pad(a, data));
        Ok(PemBlock(typ, map["Proc-Type" := "4,ENCRYPTED", "DEK-Info" := DekInfo(a, iv)], body))
  }

  /** What X509DecryptPEMBlock returns. */
  function Decrypted(p: Primitives, b: PemBlock, password: seq<byte>): Outcome<seq<byte>, PemError>
    requires Sound(p)
  {
    match ParseDekInfo(b)
    case Err(e) => Err(e)
    case Panic => Panic
    case Ok((a, iv)) =>
      ParsedAlgo(b);
      if |b.bytes| % a.blockSize != 0 then Err(NotBlockMultiple)
      else Unpad(a, CbcDecrypt(p, a, BlockKey(p, a, iv, password), iv, b.bytes))
  }

  method X509EncryptPEMBlock(p: Primitives, random: seq<byte>, blockType: string, data: seq<byte>,
                             password: seq<byte>, alg: int)
    returns (r: Outcome<PemBlock, PemError>)
    requires Sound(p)
    ensures r == Encrypted(p, random, blockType, data, password, alg)
  {
    var ciph := CipherByKey(alg);
    if ciph == None {
      return Err(UnknownMode);
    }
    var a := ciph.value;
    if |random| < a.blockSize {
      return Err(CannotGenerateIV);
    }
    var iv := random[..a.blockSize];
    var key := DeriveKey(p, a.keySize, password, iv[..8]);
    var pad: byte := a.blockSize - |data| % a.blockSize;
    var encrypted := data;
    for i := 0 to pad
      invariant encrypted == data + seq(i, _ => pad)
    {
      encrypted := encrypted + [pad];
    }
    assert encrypted == Pad(a, data);
    var buf := new byte[|encrypted|](k requires 0 <= k < |encrypted| => encrypted[k]);
    assert buf[..] == encrypted;
    CryptBlocksInPlace(p, a, key[..], iv, buf);
    var headers := map["Proc-Type" := "4,ENCRYPTED", "DEK-Info" := a.name + "," + EncodeHex(iv)];
    return Ok(PemBlock(blockType, headers, buf[..]));
  }

  /** The padding checks at the end of X509DecryptPEMBlock. */
  method CheckPadding(a: Algo, data: array<byte>) returns (r: Outcome<seq<byte>, PemError>)
    requires a.blockSize == 8 || a.blockSize == 16
    ensures r == Unpad(a, data[..])
  {
    var dlen := data.Length;
    if dlen == 0 || dlen % a.blockSize != 0 {
      return Err(InvalidPadding);
    }
    var last := data[dlen - 1];
    if dlen < last {
      return Err(IncorrectPassword);
    }
    if last == 0 || last > a.blockSize {
      return Err(IncorrectPassword);
    }
    for k := dlen - last to dlen
      invariant forall j | dlen - last <= j < k :: data[j] == last
    {
      if data[k] != last {
        return Err(IncorrectPassword);
      }
    }
    return Ok(data[..dlen - last]);
  }

  method X509DecryptPEMBlock(p: Primitives, b: PemBlock, password: seq<byte>)
    returns (r: Outcome<seq<byte>, PemError>)
    requires Sound(p)
    ensures r == Decrypted(p, b, password)
  {
    var header := ParseDekInfo(b);
    if !header.Ok? {
      return match header case Err(e) => Err(e) case _ => Panic;
    }
    ParsedAlgo(b);
    var (a, iv) := header.value;
    var key := DeriveKey(p, a.keySize, password, iv[..8]);
    if |b.bytes| % a.blockSize != 0 {
      return Err(NotBlockMultiple);
    }
    var data := DecryptBlocks(p, a, key[..], iv, b.bytes);
    r := CheckPadding(a, data);
  }

  // ---------- theorems ----------

  /** Decrypting an encrypted block with the same password gives back the data, for every cipher. */
  lemma DecryptOfEncrypt(p: Primitives, random: seq<byte>, typ: string, data: seq<byte>, password: seq<byte>, alg: int)
    requires Sound(p)
    ensures var r := Encrypted(p, random, typ, data, password, alg);
            && (r.Ok? <==> 1 <= alg <= 5 && |random| >= ALGOS[alg - 1].blockSize)
            && (r.Ok? ==> Decrypted(p, r.value, password) == Ok(data))
  {
    var r := Encrypted(p, random, typ, data, password, alg);
    if r.Ok? {
      var a := ALGOS[alg - 1];
      AlgosAreDistinct(alg);
      var iv := random[..a.blockSize];
      DekInfoRoundTrip(alg, iv, r.value);
      DecryptEncrypt(p, a, BlockKey(p, a, iv, password), iv, Pad(a, data));
      UnpadIff(a, Pad(a, data), data);
    }
  }

  /** Conversely the accepted blocks are exactly the encryptions: a block decrypts to some data if
      and only if its header parses and its bytes are that data, padded and encrypted under the
      same password and the header's initialization vector. */
  lemma DecryptIff(p: Primitives, b: PemBlock, password: seq<byte>, data: seq<byte>)
    requires Sound(p)
    ensures Decrypted(p, b, password) == Ok(data) <==>
            && ParseDekInfo(b).Ok?
            && var (a, iv) := ParseDekInfo(b).value;
            && (a.blockSize == 8 || a.blockSize == 16) && |iv| == a.blockSize
            && b.bytes == CbcEncrypt(p, a, BlockKey(p, a, iv, password), iv, Pad(a, data))
  {
    if ParseDekInfo(b).Ok? {
      ParsedAlgo(b);
      var (a, iv) := ParseDekInfo(b).value;
      var key := BlockKey(p, a, iv, password);
      DecryptEncrypt(p, a, key, iv, Pad(a, data));
      if |b.bytes| % a.blockSize == 0 {
        EncryptDecrypt(p, a, key, iv, b.bytes);
        UnpadIff(a, CbcDecrypt(p, a, key, iv, b.bytes), data);
      }
    }
  }

  /** The incorrect-password error means: the header is good, the bytes are whole blocks and at least
      one, and they are no data's encryption under this password. */
  lemma IncorrectPasswordIff(p: Primitives, b: PemBlock, password: seq<byte>)
    requires Sound(p)
    ensures Decrypted(p, b, password) == Err(IncorrectPassword) <==>
            && ParseDekInfo(b).Ok?
            && var (a, iv) := ParseDekInfo(b).value;
            && (a.blockSize == 8 || a.blockSize == 16) && |iv| == a.blockSize
            && WholeBlocks(a, b.bytes) && b.bytes != []
            && forall data :: b.bytes != CbcEncrypt(p, a, BlockKey(p, a, iv, password), iv, Pad(a, data))
  {
    if ParseDekInfo(b).Ok? {
      ParsedAlgo(b);
      var (a, iv) := ParseDekInfo(b).value;
      forall data: seq<byte>
        ensures Decrypted(p, b, password) == Ok(data)
           <==> b.bytes == CbcEncrypt(p, a, BlockKey(p, a, iv, password), iv, Pad(a, data))
      {
        DecryptIff(p, b, password, data);
      }
    }
  }

  // ---------- what is written, bit by bit and block by block ----------

  /** Bit k of a number. */
  function Bit(a: nat, k: nat): nat {
    a / Pow2(k) % 2
  }

  lemma HalfBit(a: nat, k: nat)
    requires k > 0
    ensures Bit(a, k) == Bit(a / 2, k - 1)
  {
    HalfQuotient(a, Pow2(k - 1));
  }

  lemma HalfQuotient(a: nat, p: nat)
    requires p > 0
    ensures a / (2 * p) == a / 2 / p
  {
    var q, r := a / 2 / p, a / 2 % p;
    var rest := 2 * r + a % 2;
    assert a == 2 * (p * q + r) + a % 2 == q * (2 * p) + rest;
    assert 0 <= rest < 2 * p;
    QuotientIs(a, 2 * p, q, rest);
  }

  lemma QuotientIs(a: nat, d: nat, q: nat, r: nat)
    requires d > 0 && a == q * d + r && r < d
    ensures a / d == q
  {
    var x, m := a / d, a % d;
    Distributes(x, q, d);
    assert x * d + m == q * d + r;
    if x < q {
      AtLeastOne(q - x, d);
    } else if x > q {
      AtLeastOne(x - q, d);
    }
  }

  lemma Distributes(x: int, q: int, d: int)
    ensures (x - q) * d == x * d - q * d && (q - x) * d == q * d - x * d
  {}

  lemma AtLeastOne(k: nat, d: nat)
    requires k > 0
    ensures k * d >= d
  {}

  lemma LowBit(a: nat)
    ensures Bit(a, 0) == a % 2
  {
    assert Pow2(0) == 1;
  }

  lemma XorParts(a: nat, b: nat, n: nat)
    requires a < Pow2(n) && b < Pow2(n) && n > 0
    ensures XorBits(a, b, n) % 2 == (a + b) % 2 && XorBits(a, b, n) / 2 == XorBits(a / 2, b / 2, n - 1)
  {}

  lemma OddSum(a: nat, b: nat)
    ensures (a + b) % 2 != a % 2 <==> b % 2 == 1
  {}

  /** A bit of the result differs from that of the first number exactly if it is set in the second. */
  lemma {:induction false} XorFlips(a: nat, b: nat, n: nat, k: nat)
    requires a < Pow2(n) && b < Pow2(n) && k < n
    ensures Bit(XorBits(a, b, n), k) != Bit(a, k) <==> Bit(b, k) == 1
    decreases k
  {
    var x := XorBits(a, b, n);
    XorParts(a, b, n);
    if k == 0 {
      LowBit(x);
      LowBit(a);
      LowBit(b);
      OddSum(a, b);
    } else {
      HalfBit(x, k);
      HalfBit(a, k);
      HalfBit(b, k);
      XorFlips(a / 2, b / 2, n - 1, k - 1);
    }
  }

  /** `x` is `block` with exactly the bits of `mask` flipped. */
  predicate Flipped(x: seq<byte>, block: seq<byte>, mask: seq<byte>) {
    && |x| == |block| == |mask|
    && forall i, k: nat | 0 <= i < |x| && k < 8 :: Bit(x[i], k) != Bit(block[i], k) <==> Bit(mask[i], k) == 1
  }

  lemma XorIsFlipped(block: seq<byte>, mask: seq<byte>)
    requires |block| == |mask|
    ensures Flipped(Xor(block, mask), block, mask)
  {
    assert Pow2(8) == 256;
    forall i, k: nat | 0 <= i < |block| && k < 8
      ensures Bit(Xor(block, mask)[i], k) != Bit(block[i], k) <==> Bit(mask[i], k) == 1
    {
      XorFlips(block[i], mask[i], 8, k);
    }
  }

  /** Block by block, a chained encryption is the cipher applied to the block of the data with exactly the
      bits of the block written before flipped, or, for the first block, those of the vector. */
  ghost predicate IsChained(p: Primitives, a: Algo, key: seq<byte>, iv: seq<byte>, data: seq<byte>, r: seq<byte>) {
    var n := a.blockSize;
    && n > 0 && |r| == |data| && |data| % n == 0
    && forall i: nat | i % n == 0 && i + n <= |data| ::
         exists x :: Flipped(x, data[i..i + n], if i == 0 then iv else r[i - n..i]) && r[i..i + n] == p.enc(a, key, x)
  }

  lemma {:induction false} CbcIsChained(p: Primitives, a: Algo, key: seq<byte>, iv: seq<byte>, data: seq<byte>)
    requires Sound(p) && WholeBlocks(a, data) && |iv| == a.blockSize
    ensures IsChained(p, a, key, iv, data, CbcEncrypt(p, a, key, iv, data))
    decreases |data|
  {
    if data != [] {
      DropBlock(a, data);
      var n := a.blockSize;
      var x := Xor(data[..n], iv);
      var c, rest := p.enc(a, key, x), data[n..];
      var r, tail := CbcEncrypt(p, a, key, iv, data), CbcEncrypt(p, a, key, c, rest);
      XorIsFlipped(data[..n], iv);
      CbcIsChained(p, a, key, c, rest);
      Cut(c, tail);
      assert data[0..n] == data[..n] && r[0..n] == c;
      forall i: nat | i % n == 0 && i + n <= |data| && i > 0
        ensures exists x :: Flipped(x, data[i..i + n], r[i - n..i]) && r[i..i + n] == p.enc(a, key, x)
      {
        NextBlock(i, n);
        ShiftedBlocks(data, rest, r, tail, c, i, n);
      }
    }
  }

  lemma NextBlock(i: nat, n: nat)
    requires (n == 8 || n == 16) && i % n == 0 && i > 0
    ensures i >= n && (i - n) % n == 0 && (i == n || i >= n + n)
  {}

  lemma ShiftedBlocks(data: seq<byte>, rest: seq<byte>, r: seq<byte>, tail: seq<byte>, c: seq<byte>, i: nat, n: nat)
    requires |data| == |r| && 0 < n && (i == n || n + n <= i) && i + n <= |data|
    requires rest == data[n..] && |c| == n && r == c + tail
    ensures data[i..i + n] == rest[i - n..i] && r[i..i + n] == tail[i - n..i]
    ensures r[i - n..i] == if i == n then c else tail[i - n - n..i - n]
  {
    Cut(c, tail);
    assert r[n..][i - n..i] == r[i..i + n];
    if i == n {
      assert r[0..n] == r[..n];
    } else {
      assert r[n..][i - n - n..i - n] == r[i - n..i];
    }
  }

  // ---------- the block that is written, in full ----------

  /** The five ciphers: number, name, key size and block size. */
  predicate IsCipher(alg: int, a: Algo) {
    || (alg == 1 && a == Algo(1, "DES-CBC", 8, 8))
    || (alg == 2 && a == Algo(2, "DES-EDE3-CBC", 24, 8))
    || (alg == 3 && a == Algo(3, "AES-128-CBC", 16, 16))
    || (alg == 4 && a == Algo(4, "AES-192-CBC", 24, 16))
    || (alg == 5 && a == Algo(5, "AES-256-CBC", 32, 16))
  }

  /** The first bytes of the digest of password and salt, and of the digest of that, password and salt. */
  function StretchedKey(p: Primitives, size: nat, password: seq<byte>, salt: seq<byte>): seq<byte>
    requires Sound(p) && size <= 32
  {
    var first := p.md5(password + salt);
    (first + p.md5(first + password + salt))[..size]
  }

  lemma KeyIsStretched(p: Primitives, size: nat, password: seq<byte>, salt: seq<byte>)
    requires Sound(p) && 1 <= size <= 32
    ensures DerivedKey(p, size, password, salt) == StretchedKey(p, size, password, salt)
  {
    var first := Digest(p, 1, password, salt);
    Empty(password);
    Empty(first);
    assert KeyStream(p, 0, password, salt) == [] && Digest(p, 0, password, salt) == [];
    assert first == p.md5(password + salt);
    assert Digest(p, 2, password, salt) == p.md5(first + password + salt);
    assert KeyStream(p, 1, password, salt) == first;
    assert KeyStream(p, 2, password, salt) == first + Digest(p, 2, password, salt);
    Cut(first, Digest(p, 2, password, salt));
    assert size <= 16 ==> first[..size] == (first + Digest(p, 2, password, salt))[..size];
  }

  /** The data, and then up to n bytes, at least one, that fill the last block and each hold their number. */
  predicate IsPadded(padded: seq<byte>, data: seq<byte>, n: nat) {
    && n > 0 && |data| < |padded| <= |data| + n && |padded| % n == 0 && padded[..|data|] == data
    && forall k | |data| <= k < |padded| :: padded[k] == |padded| - |data|
  }

  lemma PadIsPadded(a: Algo, data: seq<byte>)
    requires a.blockSize == 8 || a.blockSize == 16
    ensures IsPadded(Pad(a, data), data, a.blockSize)
  {
    Cut(data, Pad(a, data)[|data|..]);
  }

  /** Two lower-case hexadecimal digits for each byte. */
  predicate IsHex(s: string, bytes: seq<byte>) {
    && |s| == 2 * |bytes|
    && forall k | 0 <= k < |bytes| ::
         s[2 * k] == "0123456789abcdef"[bytes[k] / 16] && s[2 * k + 1] == "0123456789abcdef"[bytes[k] % 16]
  }

  lemma {:induction false} EncodedIsHex(bytes: seq<byte>)
    ensures IsHex(EncodeHex(bytes), bytes)
  {
    if bytes != [] {
      var rest, s := bytes[1..], EncodeHex(bytes);
      EncodedIsHex(rest);
      assert s[2..] == EncodeHex(rest);
      forall k | 1 <= k < |bytes|
        ensures s[2 * k] == HEX_DIGITS[bytes[k] / 16] && s[2 * k + 1] == HEX_DIGITS[bytes[k] % 16]
      {
        assert s[2 * k] == s[2..][2 * (k - 1)] && s[2 * k + 1] == s[2..][2 * (k - 1) + 1] && rest[k - 1] == bytes[k];
      }
    }
  }

  /** The headers name the cipher and the vector. */
  predicate HasHeaders(b: PemBlock, name: string, iv: seq<byte>) {
    && b.headers.Keys == {"Proc-Type", "DEK-Info"} && b.headers["Proc-Type"] == "4,ENCRYPTED"
    && name + "," <= b.headers["DEK-Info"] && IsHex(b.headers["DEK-Info"][|name| + 1..], iv)
  }

  lemma WrittenHeaders(a: Algo, iv: seq<byte>, b: PemBlock)
    requires b.headers == map["Proc-Type" := "4,ENCRYPTED", "DEK-Info" := DekInfo(a, iv)]
    ensures HasHeaders(b, a.name, iv)
  {
    assert "Proc-Type"[0] != "DEK-Info"[0];
    EncodedIsHex(iv);
    Cut(a.name + ",", EncodeHex(iv));
  }

  /** What X509EncryptPEMBlock returns, for each of the five ciphers: an error if the random source does not
      yield a vector; otherwise a block of the type asked for whose headers name cipher and vector, and
      whose bytes are the padded data, chained under the key stretched from the password and the first eight
      bytes of the vector. For any other number it is an error. */
  lemma EncryptedMeans(p: Primitives, random: seq<byte>, typ: string, data: seq<byte>, password: seq<byte>, alg: int,
                       a: Algo)
    requires Sound(p)
    ensures var r := Encrypted(p, random, typ, data, password, alg);
            && (!(1 <= alg <= 5) ==> r == Err(UnknownMode))
            && (IsCipher(alg, a) && |random| < a.blockSize ==> r == Err(CannotGenerateIV))
            && (IsCipher(alg, a) && |random| >= a.blockSize ==>
                  && r.Ok? && r.value.typ == typ && HasHeaders(r.value, a.name, random[..a.blockSize])
                  && exists padded ::
                       && IsPadded(padded, data, a.blockSize)
                       && IsChained(p, a, StretchedKey(p, a.keySize, password, random[..8]), random[..a.blockSize],
                                    padded, r.value.bytes))
  {
    if IsCipher(alg, a) && |random| >= a.blockSize {
      var iv := random[..a.blockSize];
      var b := Encrypted(p, random, typ, data, password, alg).value;
      assert iv[..8] == random[..8];
      WrittenHeaders(a, iv, b);
      KeyIsStretched(p, a.keySize, password, random[..8]);
      PadIsPadded(a, data);
      CbcIsChained(p, a, BlockKey(p, a, iv, password), iv, Pad(a, data));
      assert IsPadded(Pad(a, data), data, a.blockSize);
    }
  }

  // ---------- the header that is read ----------

  lemma {:induction false} DecodeHexIff(s: string, bytes: seq<byte>)
    ensures DecodeHex(s) == Some(bytes) <==> AreDigits(s, bytes)
  {
    if |s| >= 2 && bytes != [] {
      var rest, tail := bytes[1..], s[2..];
      DecodeHexStep(s, bytes);
      DecodeHexIff(tail, rest);
      ShiftedDigits(s, bytes);
    }
  }

  predicate AreDigits(s: string, bytes: seq<byte>) {
    && |s| == 2 * |bytes|
    && forall k | 0 <= k < |bytes| ::
         HexValue(s[2 * k]) == Some(bytes[k] / 16) && HexValue(s[2 * k + 1]) == Some(bytes[k] % 16)
  }

  lemma ShiftedDigits(s: string, bytes: seq<byte>)
    requires |s| >= 2 && bytes != []
    ensures AreDigits(s, bytes) <==>
              && HexValue(s[0]) == Some(bytes[0] / 16) && HexValue(s[1]) == Some(bytes[0] % 16)
              && AreDigits(s[2..], bytes[1..])
  {
    var rest, tail := bytes[1..], s[2..];
    assert |s| == 2 * |bytes| ==>
             forall k | 0 <= k < |rest| ::
               rest[k] == bytes[k + 1] && tail[2 * k] == s[2 * (k + 1)] && tail[2 * k + 1] == s[2 * (k + 1) + 1];
    if AreDigits(tail, rest) {
      forall k | 1 <= k < |bytes|
        ensures s[2 * k] == tail[2 * (k - 1)] && s[2 * k + 1] == tail[2 * (k - 1) + 1] && bytes[k] == rest[k - 1]
      {}
    }
  }

  predicate IsDigitOf(c: char, v: nat)
    requires v < 16
  {
    c == "0123456789abcdef"[v] || c == "0123456789ABCDEF"[v]
  }

  lemma HexValueIff(c: char, v: nat)
    requires v < 16
    ensures HexValue(c) == Some(v) <==> IsDigitOf(c, v)
  {}

  /** Two hexadecimal digits of either case for each byte. */
  predicate ReadsAsHex(s: string, bytes: seq<byte>) {
    && |s| == 2 * |bytes|
    && forall k | 0 <= k < |bytes| :: IsDigitOf(s[2 * k], bytes[k] / 16) && IsDigitOf(s[2 * k + 1], bytes[k] % 16)
  }

  lemma ReadsAsHexIff(s: string, bytes: seq<byte>)
    ensures DecodeHex(s) == Some(bytes) <==> ReadsAsHex(s, bytes)
  {
    DecodeHexIff(s, bytes);
    if |s| == 2 * |bytes| {
      forall k | 0 <= k < |bytes|
        ensures HexValue(s[2 * k]) == Some(bytes[k] / 16) <==> IsDigitOf(s[2 * k], bytes[k] / 16)
        ensures HexValue(s[2 * k + 1]) == Some(bytes[k] % 16) <==> IsDigitOf(s[2 * k + 1], bytes[k] % 16)
      {
        HexValueIff(s[2 * k], bytes[k] / 16);
        HexValueIff(s[2 * k + 1], bytes[k] % 16);
      }
    }
  }

  lemma CipherByNameIff(name: string, a: Algo)
    ensures CipherByName(name) == Some(a) <==> IsCipher(a.cipher, a) && name == a.name
  {
    AlgosAreDistinct(1);
    AlgosAreDistinct(2);
    AlgosAreDistinct(3);
    AlgosAreDistinct(4);
    AlgosAreDistinct(5);
  }

  /** A block's header is accepted exactly if it is the name of one of the five ciphers, a comma, and the
      digits of a vector of its block size. */
  lemma ParseDekInfoIff(b: PemBlock, a: Algo, iv: seq<byte>)
    ensures ParseDekInfo(b) == Ok((a, iv)) <==>
              && "DEK-Info" in b.headers && IsCipher(a.cipher, a) && |iv| == a.blockSize
              && a.name + "," <= b.headers["DEK-Info"]
              && ReadsAsHex(b.headers["DEK-Info"][|a.name| + 1..], iv)
  {
    if ParseDekInfo(b) == Ok((a, iv)) {
      ParsedHeader(b, a, iv);
    }
    if "DEK-Info" in b.headers && IsCipher(a.cipher, a) && a.name + "," <= b.headers["DEK-Info"] {
      var dek := b.headers["DEK-Info"];
      NameHasNoComma(a);
      UpToComma(dek, a.name);
      CipherByNameIff(a.name, a);
      ReadsAsHexIff(dek[|a.name| + 1..], iv);
    }
  }

  lemma UpToComma(dek: string, name: string)
    requires ',' !in name && name + "," <= dek
    ensures Index(dek, ",") == |name| && dek[..|name|] == name
  {
    assert dek[..|name|] == name;
    assert dek[|name|] == (name + ",")[|name|];
    IndexOfChar(dek, ',', |name|);
  }

  lemma ParsedParts(b: PemBlock, a: Algo, iv: seq<byte>) returns (dek: string, idx: nat)
    requires ParseDekInfo(b) == Ok((a, iv))
    ensures "DEK-Info" in b.headers && dek == b.headers["DEK-Info"] && OccursAt(dek, ",", idx)
    ensures CipherByName(dek[..idx]) == Some(a) && DecodeHex(dek[idx + 1..]) == Some(iv) && |iv| == a.blockSize
  {
    dek := b.headers["DEK-Info"];
    idx := Index(dek, ",");
  }

  lemma ParsedHeader(b: PemBlock, a: Algo, iv: seq<byte>)
    requires ParseDekInfo(b) == Ok((a, iv))
    ensures "DEK-Info" in b.headers && IsCipher(a.cipher, a) && |iv| == a.blockSize
    ensures a.name + "," <= b.headers["DEK-Info"] && ReadsAsHex(b.headers["DEK-Info"][|a.name| + 1..], iv)
  {
    var dek, idx := ParsedParts(b, a, iv);
    CipherByNameIff(dek[..idx], a);
    ReadsAsHexIff(dek[idx + 1..], iv);
    CommaStands(dek, idx);
  }

  lemma CommaStands(dek: string, idx: nat)
    requires OccursAt(dek, ",", idx)
    ensures dek[..idx] + "," <= dek
  {
    assert dek[idx] == dek[idx..idx + 1][0] == ',';
  }

  lemma NameHasNoComma(a: Algo)
    requires IsCipher(a.cipher, a)
    ensures ',' !in a.name
  {
    AlgosAreDistinct(a.cipher);
  }
}

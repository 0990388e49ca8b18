/** pkg/util/utils.go (EncryptPkcs1PrivateKey, GetPrivateKeyType): the private key of a PEM text,
    encrypted, as PEM text. */
module KeyText {
  import opened Wrappers
  import opened Seqs
  import opened Text
  import opened Bytes
  import opened PemText
  import opened PemBody
  import opened PemLaws
  import opened Rfc1423

  const RSA_KEY := "RSA PRIVATE KEY"
  const EC_KEY := "EC PRIVATE KEY"

  /** Encryption is with AES-256. */
  const CIPHER := 5

  function GetPrivateKeyType(text: string): string {
    match DecodePem(PEM, text)
    case None => ""
    case Some((b, _)) => if b.typ == RSA_KEY || b.typ == EC_KEY then b.typ else ""
  }

  /** What EncryptPkcs1PrivateKey returns, with the bytes its random source yields. A failure to encrypt
      is not reported, and a text without a key of the two types leaves no block to write. */
  function EncryptedText(p: Primitives, random: seq<byte>, text: string, password: seq<byte>)
    : Outcome<string, PemError>
    requires Sound(p)
  {
    var keyType := GetPrivateKeyType(text);
    if keyType == "" then Panic
    else
      var block := DecodePem(PEM, text).value.0;
      match Encrypted(p, random, keyType, block.bytes, password, CIPHER)
      case Ok(encrypted) => Ok(EncodePem(PEM, encrypted))
      case Err(_) => Ok("")
      case Panic => Panic
  }

  // ---------- the header of an encrypted block is written and read back ----------

  predicate AllHex(s: string) {
    forall k | 0 <= k < |s| :: HexValue(s[k]).Some?
  }

  lemma MoreHex(a: char, b: char, s: string)
    requires HexValue(a).Some? && HexValue(b).Some? && AllHex(s)
    ensures AllHex([a, b] + s)
  {}

  lemma {:induction false} HexDigits(bytes: seq<byte>)
    ensures AllHex(EncodeHex(bytes))
  {
    if bytes != [] {
      HexDigitValue(bytes[0] / 16);
      HexDigitValue(bytes[0] % 16);
      HexDigits(bytes[1..]);
      MoreHex(HEX_DIGITS[bytes[0] / 16], HEX_DIGITS[bytes[0] % 16], EncodeHex(bytes[1..]));
    }
  }

  lemma NamesAreValues()
    ensures IsValue("DES-CBC") && IsValue("DES-EDE3-CBC")
    ensures IsValue("AES-128-CBC") && IsValue("AES-192-CBC") && IsValue("AES-256-CBC")
  {
    assert '\n' !in "DES-CBC" && '\n' !in "DES-EDE3-CBC";
    assert '\n' !in "AES-128-CBC" && '\n' !in "AES-192-CBC" && '\n' !in "AES-256-CBC";
    assert |"DES-CBC"| == 7 && "DES-CBC"[6] == 'C';
    assert |"DES-EDE3-CBC"| == 12 && "DES-EDE3-CBC"[11] == 'C';
    assert |"AES-128-CBC"| == |"AES-192-CBC"| == |"AES-256-CBC"| == 11;
    assert "AES-128-CBC"[10] == "AES-192-CBC"[10] == "AES-256-CBC"[10] == 'C';
  }

  lemma DekInfoIsValue(key: int, iv: seq<byte>)
    requires 1 <= key <= 5
    ensures IsValue(DekInfo(ALGOS[key - 1], iv))
  {
    NamesAreValues();
    HexDigits(iv);
    assert ALGOS[key - 1] in {DES, TRIPLE_DES, AES128, AES192, AES256};
    ValueOfParts(ALGOS[key - 1].name, EncodeHex(iv));
  }

  lemma ValueOfParts(name: string, hex: string)
    requires name != "" && IsValue(name) && AllHex(hex)
    ensures IsValue(name + "," + hex)
  {
    var s := name + "," + hex;
    forall k | 0 <= k < |s| ensures s[k] != '\n' {
      if k < |name| {
        assert s[k] == name[k];
      } else if k > |name| {
        assert s[k] == hex[k - |name| - 1];
      }
    }
    assert s[0] == name[0];
    assert s[|s| - 1] == if hex == "" then ',' else hex[|hex| - 1];
  }

  /** Every encrypted block is one the PEM text carries. */
  lemma EncryptedIsPlain(p: Primitives, random: seq<byte>, typ: string, data: seq<byte>, password: seq<byte>, alg: int)
    requires Sound(p) && CleanType(typ)
    ensures Encrypted(p, random, typ, data, password, alg).Ok? ==>
              IsPlain(Encrypted(p, random, typ, data, password, alg).value)
  {
    if 1 <= alg <= 5 && |random| >= ALGOS[alg - 1].blockSize {
      DekInfoIsValue(alg, random[..ALGOS[alg - 1].blockSize]);
    }
  }

  // ---------- theorems ----------

  /** From data to an encrypted block to PEM text and all the way back, for every cipher, whatever follows
      the text. */
  lemma EncryptedTextRoundTrip(p: Primitives, random: seq<byte>, typ: string, data: seq<byte>, password: seq<byte>,
                               alg: int, rest: string)
    requires Sound(p) && CleanType(typ) && Encrypted(p, random, typ, data, password, alg).Ok?
    ensures var b := Encrypted(p, random, typ, data, password, alg).value;
            && DecodePem(PEM, EncodePem(PEM, b) + rest) == Some((b, rest))
            && Decrypted(p, b, password) == Ok(data)
  {
    EncryptedIsPlain(p, random, typ, data, password, alg);
    PlainRoundTrip(Encrypted(p, random, typ, data, password, alg).value, rest);
    DecryptOfEncrypt(p, random, typ, data, password, alg);
  }

  predicate NamesAes256(b: PemBlock) {
    "DEK-Info" in b.headers && "AES-256-CBC," <= b.headers["DEK-Info"]
  }

  /** What is done with the text of a key: it keeps its type, it is encrypted with AES-256, and decrypting it
      gives the key. */
  predicate HoldsKey(p: Primitives, text: string, typ: string, key: seq<byte>, password: seq<byte>)
    requires Sound(p)
  {
    var read := DecodePem(PEM, text);
    && read.Some? && read.value.0.typ == typ && read.value.1 == "" && NamesAes256(read.value.0)
    && Decrypted(p, read.value.0, password) == Ok(key)
  }

  /** Encrypting the key of a text, in full: it panics exactly if the first block is no key of the two types;
      otherwise the text returned holds the key, encrypted, exactly if the random source yields an
      initialization vector, and is empty, without an error, if not. */
  lemma EncryptedTextIff(p: Primitives, random: seq<byte>, text: string, password: seq<byte>)
    requires Sound(p)
    ensures var read, r := DecodePem(PEM, text), EncryptedText(p, random, text, password);
            && (r == Panic <==> read == None || read.value.0.typ !in {"RSA PRIVATE KEY", "EC PRIVATE KEY"})
            && (r != Panic ==>
                  && r.Ok?
                  && (r.value == "" <==> |random| < 16)
                  && (|random| >= 16 <==> HoldsKey(p, r.value, read.value.0.typ, read.value.0.bytes, password)))
  {
    if GetPrivateKeyType(text) != "" {
      if |random| >= 16 {
        EncryptedTextHolds(p, random, text, password);
      } else {
        assert DecodePem(PEM, "") == None;
      }
    }
  }

  lemma BlockTextHolds(p: Primitives, b: PemBlock, key: seq<byte>, password: seq<byte>)
    requires Sound(p) && IsPlain(b) && NamesAes256(b) && Decrypted(p, b, password) == Ok(key)
    ensures EncodePem(PEM, b) != "" && HoldsKey(p, EncodePem(PEM, b), b.typ, key, password)
  {
    PlainRoundTrip(b, "");
    Empty(EncodePem(PEM, b));
  }

  lemma EncryptedHolds(p: Primitives, random: seq<byte>, typ: string, data: seq<byte>, password: seq<byte>,
                       encrypted: Outcome<PemBlock, PemError>)
    requires Sound(p) && CleanType(typ) && |random| >= 16
    requires encrypted == Encrypted(p, random, typ, data, password, CIPHER)
    ensures encrypted.Ok? && EncodePem(PEM, encrypted.value) != ""
    ensures HoldsKey(p, EncodePem(PEM, encrypted.value), typ, data, password)
  {
    DecryptOfEncrypt(p, random, typ, data, password, CIPHER);
    EncryptedIsPlain(p, random, typ, data, password, CIPHER);
    EncryptedNamesAes256(p, random, typ, data, password);
    BlockTextHolds(p, encrypted.value, data, password);
  }

  lemma EncryptedNamesAes256(p: Primitives, random: seq<byte>, typ: string, data: seq<byte>, password: seq<byte>)
    requires Sound(p) && |random| >= 16
    ensures var b := Encrypted(p, random, typ, data, password, CIPHER); b.Ok? && NamesAes256(b.value)
  {
    EncryptedMeans(p, random, typ, data, password, 5, Algo(5, "AES-256-CBC", 32, 16));
    assert "AES-256-CBC" + "," == "AES-256-CBC,";
  }

  lemma KeyTypesAreClean()
    ensures CleanType(RSA_KEY) && CleanType(EC_KEY)
  {}

  lemma EncryptedTextHolds(p: Primitives, random: seq<byte>, text: string, password: seq<byte>)
    requires Sound(p) && GetPrivateKeyType(text) != "" && |random| >= 16
    ensures var read, r := DecodePem(PEM, text), EncryptedText(p, random, text, password);
            r.Ok? && r.value != "" && HoldsKey(p, r.value, read.value.0.typ, read.value.0.bytes, password)
  {
    var keyType, data := GetPrivateKeyType(text), DecodePem(PEM, text).value.0.bytes;
    KeyTypesAreClean();
    EncryptedHolds(p, random, keyType, data, password, Encrypted(p, random, keyType, data, password, CIPHER));
  }
}

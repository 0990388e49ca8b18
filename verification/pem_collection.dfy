/** pkg/certificate/certificateCollection.go (PEMCollectionFromBytes) and cmd/vcert/result_writer.go
    (Output.Format): reading certificates and keys from PEM text, and writing that text. */
module PemCollection {
  import opened Wrappers
  import opened Seqs
  import opened Text
  import opened Bytes
  import opened PemText

  datatype ChainOption = RootLast | RootFirst | IgnoreChain

  // ---------- reading ----------

  const CERTIFICATE := "CERTIFICATE"

  predicate IsPrivateKey(typ: string) {
    typ == "RSA PRIVATE KEY" || typ == "EC PRIVATE KEY" || typ == "ENCRYPTED PRIVATE KEY" || typ == "PRIVATE KEY"
  }

  datatype PemError = InvalidCertificate

  function CertificateBlock(raw: seq<byte>): PemBlock {
    PemBlock(CERTIFICATE, map[], raw)
  }

  function CertificatePem(codec: BodyCodec, raw: seq<byte>): string {
    EncodePem(codec, CertificateBlock(raw))
  }

  /** The certificates found in the text, in order, and the text from the last private key on;
      `valid` tells which contents `x509.ParseCertificate` accepts. */
  function Scan(codec: BodyCodec, valid: seq<byte> -> bool, current: string, chain: seq<seq<byte>>, priv: string)
    : (r: Outcome<(seq<seq<byte>>, string), PemError>)
    ensures r != Panic
    decreases |current|
  {
    match DecodePem(codec, current)
    case None => Ok((chain, priv))
    case Some((p, remaining)) =>
      if p.typ == CERTIFICATE then
        if valid(p.bytes) then Scan(codec, valid, remaining, chain + [p.bytes], priv) else Err(InvalidCertificate)
      else if IsPrivateKey(p.typ) then Scan(codec, valid, remaining, chain, current)
      else Scan(codec, valid, remaining, chain, priv)
  }

  datatype Contents = Contents(certificate: string, privateKey: string, chain: seq<string>, csr: string)

  function Pems(codec: BodyCodec, raws: seq<seq<byte>>): (r: seq<string>)
    ensures |r| == |raws| && forall k | 0 <= k < |r| :: r[k] == CertificatePem(codec, raws[k])
  {
    seq(|raws|, k requires 0 <= k < |raws| => CertificatePem(codec, raws[k]))
  }

  /** How the certificates found are arranged. */
  function Arranged(codec: BodyCodec, found: seq<seq<byte>>, priv: string, option: ChainOption): Contents {
    if found == [] then Contents("", priv, [], "")
    else if option == RootFirst then
      Contents(CertificatePem(codec, found[|found| - 1]), priv, Pems(codec, found[..|found| - 1]), "")
    else
      Contents(CertificatePem(codec, found[0]), priv, if option == IgnoreChain then [] else Pems(codec, found[1..]), "")
  }

  /** What PEMCollectionFromBytes returns. */
  function Collected(codec: BodyCodec, valid: seq<byte> -> bool, text: string, option: ChainOption)
    : Outcome<Contents, PemError>
  {
    match Scan(codec, valid, text, [], "")
    case Err(e) => Err(e)
    case Panic => Panic
    case Ok((found, priv)) => Ok(Arranged(codec, found, priv, option))
  }

  /** Writing a private key as a block, encrypted or not; None is an error. */
  datatype KeyWriter = KeyWriter(plain: seq<byte> -> Option<PemBlock>,
                                 encrypted: (seq<byte>, string) -> Option<PemBlock>)

  class PEMCollection {
    var certificate: string
    var privateKey: string
    var chain: seq<string>
    var csr: string

    function View(): Contents
      reads this
    {
      Contents(certificate, privateKey, chain, csr)
    }

    /** NewPEMCollection without a key; None is a nil certificate. */
    constructor (codec: BodyCodec, cert: Option<seq<byte>>)
      ensures View() == Contents(if cert.Some? then CertificatePem(codec, cert.value) else "", "", [], "")
    {
      certificate := if cert.Some? then CertificatePem(codec, cert.value) else "";
      privateKey, chain, csr := "", [], "";
    }

    /** A nil certificate is refused. */
    method AddChainElement(codec: BodyCodec, cert: Option<seq<byte>>) returns (ok: bool)
      modifies this`chain
      ensures ok == cert.Some?
      ensures chain == if cert.Some? then old(chain) + [CertificatePem(codec, cert.value)] else old(chain)
    {
      if cert == None {
        return false;
      }
      var pemChain := chain;
      pemChain := pemChain + [CertificatePem(codec, cert.value)];
      chain := pemChain;
      return true;
    }

    /** A collection holds one private key at most; the key is encrypted if there is a password, and
        writing or encrypting it may fail. */
    method AddPrivateKey(codec: BodyCodec, writer: KeyWriter, key: seq<byte>, password: string) returns (ok: bool)
      modifies this`privateKey
      ensures var block := if password == "" then writer.plain(key) else writer.encrypted(key, password);
              && ok == (old(privateKey) == "" && block.Some?)
              && privateKey == if ok then EncodePem(codec, block.value) else old(privateKey)
    {
      if privateKey != "" {
        return false;
      }
      var p: Option<PemBlock>;
      if |password| > 0 {
        p := writer.encrypted(key, password);
      } else {
        p := writer.plain(key);
      }
      if p == None {
        return false;
      }
      privateKey := EncodePem(codec, p.value);
      return true;
    }

    method AddChain(codec: BodyCodec, certs: seq<seq<byte>>)
      modifies this`chain
      ensures chain == old(chain) + Pems(codec, certs)
    {
      for i := 0 to |certs|
        invariant chain == old(chain) + Pems(codec, certs)[..i]
      {
        var _ := AddChainElement(codec, Some(certs[i]));
        assert Pems(codec, certs)[..i + 1] == Pems(codec, certs)[..i] + [CertificatePem(codec, certs[i])];
      }
      assert Pems(codec, certs)[..|certs|] == Pems(codec, certs);
    }
  }

  method ScanBlocks(codec: BodyCodec, valid: seq<byte> -> bool, text: string)
    returns (r: Outcome<(seq<seq<byte>>, string), PemError>)
    ensures r == Scan(codec, valid, text, [], "")
  {
    var current := text;
    var chain: seq<seq<byte>> := [];
    var privPEM := "";
    while true
      invariant Scan(codec, valid, current, chain, privPEM) == Scan(codec, valid, text, [], "")
      decreases |current|
    {
      var decoded := DecodePem(codec, current);
      if decoded == None {
        return Ok((chain, privPEM));
      }
      var (p, remaining) := decoded.value;
      if p.typ == "CERTIFICATE" {
        if !valid(p.bytes) {
          return Err(InvalidCertificate);
        }
        chain := chain + [p.bytes];
      } else if IsPrivateKey(p.typ) {
        privPEM := current;
      }
      current := remaining;
    }
  }

  method Arrange(codec: BodyCodec, chain: seq<seq<byte>>, privPEM: string, chainOrder: ChainOption)
    returns (collection: PEMCollection)
    ensures fresh(collection) && collection.View() == Arranged(codec, chain, privPEM, chainOrder)
  {
    if |chain| > 0 {
      if chainOrder == RootFirst {
        collection := new PEMCollection(codec, Some(chain[|chain| - 1]));
        if |chain| > 1 {
          collection.AddChain(codec, chain[..|chain| - 1]);
        }
      } else {
        collection := new PEMCollection(codec, Some(chain[0]));
        if |chain| > 1 && chainOrder != IgnoreChain {
          collection.AddChain(codec, chain[1..]);
        }
      }
    } else {
      collection := new PEMCollection(codec, None);
    }
    collection.privateKey := privPEM;
  }

  method PEMCollectionFromBytes(codec: BodyCodec, valid: seq<byte> -> bool, certBytes: string, chainOrder: ChainOption)
    returns (collection: PEMCollection?)
    ensures collection == null <==> Collected(codec, valid, certBytes, chainOrder).Err?
    ensures collection != null ==>
              fresh(collection) && Collected(codec, valid, certBytes, chainOrder) == Ok(collection.View())
  {
    var scanned := ScanBlocks(codec, valid, certBytes);
    if !scanned.Ok? {
      return null;
    }
    collection := Arrange(codec, scanned.value.0, scanned.value.1, chainOrder);
  }

  // ---------- writing ----------

  datatype Output = Output(certificate: string, csr: string, privateKey: string, chain: seq<string>, pickupId: string)

  function Pickup(id: string): string {
    if id != "" then "PickupID=\"" + id + "\"\n" else ""
  }

  /** Output.Format for the PEM format. */
  function Format(o: Output, option: ChainOption): string {
    (match option
     case RootFirst => Join(o.chain, "") + o.certificate + o.privateKey
     case IgnoreChain => o.certificate + o.privateKey
     case RootLast => o.certificate + o.csr + o.privateKey + Join(o.chain, "")) + Pickup(o.pickupId)
  }

  method FormatOutput(o: Output, option: ChainOption) returns (res: string)
    ensures res == Format(o, option)
  {
    res := "";
    match option {
      case RootFirst =>
        res := res + Join(o.chain, "");
        res := res + o.certificate;
        res := res + o.privateKey;
      case IgnoreChain =>
        res := res + o.certificate;
        res := res + o.privateKey;
      case RootLast =>
        res := res + o.certificate;
        res := res + o.csr;
        res := res + o.privateKey;
        res := res + Join(o.chain, "");
    }
    if o.pickupId != "" {
      res := res + ("PickupID=\"" + o.pickupId + "\"\n");
    }
  }

  // ---------- reading a text of whole blocks ----------

  function EncodeBlocks(codec: BodyCodec, blocks: seq<PemBlock>): string {
    if blocks == [] then "" else EncodePem(codec, blocks[0]) + EncodeBlocks(codec, blocks[1..])
  }

  function CertificatesIn(blocks: seq<PemBlock>): seq<seq<byte>> {
    if blocks == [] then []
    else (if blocks[0].typ == CERTIFICATE then [blocks[0].bytes] else []) + CertificatesIn(blocks[1..])
  }

  /** The text from the last private key on, or `none` if there is no key. */
  function FromLastKey(codec: BodyCodec, blocks: seq<PemBlock>, junk: string, none: string): string {
    if blocks == [] then none
    else
      FromLastKey(codec, blocks[1..], junk,
                  if IsPrivateKey(blocks[0].typ) then EncodeBlocks(codec, blocks) + junk else none)
  }

  ghost predicate Junk(s: string) {
    forall j: nat :: !OccursAt(s, BEGIN, j)
  }

  lemma CertificatesAfterFirst(chain: seq<seq<byte>>, blocks: seq<PemBlock>)
    requires blocks != []
    ensures (if blocks[0].typ == CERTIFICATE then chain + [blocks[0].bytes] else chain) + CertificatesIn(blocks[1..])
         == chain + CertificatesIn(blocks)
  {
    if blocks[0].typ == CERTIFICATE {
      Assoc(chain, [blocks[0].bytes], CertificatesIn(blocks[1..]));
    } else {
      Empty(CertificatesIn(blocks[1..]));
    }
  }

  /** Scanning a text of blocks followed by text without any finds every certificate, in order, and
      keeps everything from the last key on. */
  lemma {:induction false} ScanOfBlocks(codec: BodyCodec, valid: seq<byte> -> bool, blocks: seq<PemBlock>, junk: string,
                                        chain: seq<seq<byte>>, priv: string)
    requires forall k | 0 <= k < |blocks| :: Carries(codec, blocks[k])
    requires forall k | 0 <= k < |blocks| && blocks[k].typ == CERTIFICATE :: valid(blocks[k].bytes)
    requires Junk(junk)
    ensures Scan(codec, valid, EncodeBlocks(codec, blocks) + junk, chain, priv)
         == Ok((chain + CertificatesIn(blocks), FromLastKey(codec, blocks, junk, priv)))
    decreases |blocks|
  {
    if blocks == [] {
      assert EncodeBlocks(codec, blocks) + junk == junk;
      NothingToDecode(codec, junk);
      assert chain + [] == chain;
    } else {
      var b, rest := blocks[0], EncodeBlocks(codec, blocks[1..]) + junk;
      var text := EncodeBlocks(codec, blocks) + junk;
      assert text == EncodePem(codec, b) + rest;
      DecodeEncoded(codec, b, rest);
      var chain' := if b.typ == CERTIFICATE then chain + [b.bytes] else chain;
      ScanOfBlocks(codec, valid, blocks[1..], junk, chain', if IsPrivateKey(b.typ) then text else priv);
      CertificatesAfterFirst(chain, blocks);
    }
  }

  lemma {:induction false} EncodeBlocksConcat(codec: BodyCodec, a: seq<PemBlock>, b: seq<PemBlock>)
    ensures EncodeBlocks(codec, a + b) == EncodeBlocks(codec, a) + EncodeBlocks(codec, b)
    ensures CertificatesIn(a + b) == CertificatesIn(a) + CertificatesIn(b)
  {
    if a == [] {
      assert a + b == b;
    } else {
      assert (a + b)[1..] == a[1..] + b;
      EncodeBlocksConcat(codec, a[1..], b);
    }
  }

  lemma {:induction false} FromLastKeyConcat(codec: BodyCodec, a: seq<PemBlock>, b: seq<PemBlock>, junk: string,
                                             none: string)
    ensures FromLastKey(codec, a + b, junk, none)
         == FromLastKey(codec, b, junk, FromLastKey(codec, a, EncodeBlocks(codec, b) + junk, none))
  {
    if a == [] {
      assert a + b == b;
    } else {
      assert (a + b)[1..] == a[1..] + b;
      EncodeBlocksConcat(codec, a, b);
      assert EncodeBlocks(codec, a + b) + junk == EncodeBlocks(codec, a) + (EncodeBlocks(codec, b) + junk);
      FromLastKeyConcat(codec, a[1..], b, junk,
                        if IsPrivateKey(a[0].typ) then EncodeBlocks(codec, a + b) + junk else none);
    }
  }

  function CertificateBlocks(raws: seq<seq<byte>>): (r: seq<PemBlock>)
    ensures |r| == |raws| && forall k | 0 <= k < |r| :: r[k] == CertificateBlock(raws[k])
  {
    seq(|raws|, k requires 0 <= k < |raws| => CertificateBlock(raws[k]))
  }

  lemma {:induction false} CertificateBlocksText(codec: BodyCodec, raws: seq<seq<byte>>, junk: string, none: string)
    ensures EncodeBlocks(codec, CertificateBlocks(raws)) == Join(Pems(codec, raws), "")
    ensures CertificatesIn(CertificateBlocks(raws)) == raws
    ensures FromLastKey(codec, CertificateBlocks(raws), junk, none) == none
  {
    if raws != [] {
      assert CertificateBlocks(raws)[1..] == CertificateBlocks(raws[1..]);
      assert Pems(codec, raws)[1..] == Pems(codec, raws[1..]);
      CertificateBlocksText(codec, raws[1..], junk, none);
      assert raws == [raws[0]] + raws[1..];
    }
  }

  // ---------- writing, then reading ----------

  /** What vcert writes: a certificate and its chain as certificate blocks, a key and a signing request
      as one block each or not at all, and a pickup id that does not look like a block. */
  datatype Material = Material(cert: seq<byte>, chain: seq<seq<byte>>, key: Option<PemBlock>, csr: Option<PemBlock>,
                               pickupId: string)

  ghost predicate Proper(codec: BodyCodec, valid: seq<byte> -> bool, m: Material) {
    && valid(m.cert) && Carries(codec, CertificateBlock(m.cert))
    && (forall k | 0 <= k < |m.chain| :: valid(m.chain[k]) && Carries(codec, CertificateBlock(m.chain[k])))
    && (m.key.Some? ==> IsPrivateKey(m.key.value.typ) && Carries(codec, m.key.value))
    && (m.csr.Some? ==> m.csr.value.typ == "CERTIFICATE REQUEST" && Carries(codec, m.csr.value))
    && Junk(Pickup(m.pickupId))
  }

  function Optional(b: Option<PemBlock>): seq<PemBlock> {
    if b.Some? then [b.value] else []
  }

  function OutputOf(codec: BodyCodec, m: Material): Output {
    Output(CertificatePem(codec, m.cert), EncodeBlocks(codec, Optional(m.csr)), EncodeBlocks(codec, Optional(m.key)),
           Pems(codec, m.chain), m.pickupId)
  }

  /** The blocks of the written text, in order. */
  function Layout(m: Material, option: ChainOption): seq<PemBlock> {
    var cert, chain := [CertificateBlock(m.cert)], CertificateBlocks(m.chain);
    match option
    case RootFirst => chain + cert + Optional(m.key)
    case IgnoreChain => cert + Optional(m.key)
    case RootLast => cert + Optional(m.csr) + Optional(m.key) + chain
  }

  lemma OneBlock(codec: BodyCodec, b: PemBlock)
    ensures EncodeBlocks(codec, [b]) == EncodePem(codec, b)
    ensures CertificatesIn([b]) == if b.typ == CERTIFICATE then [b.bytes] else []
  {
    assert [b][1..] == [];
  }

  lemma LayoutText(codec: BodyCodec, m: Material, option: ChainOption)
    ensures Format(OutputOf(codec, m), option) == EncodeBlocks(codec, Layout(m, option)) + Pickup(m.pickupId)
  {
    var cert, chain := [CertificateBlock(m.cert)], CertificateBlocks(m.chain);
    var csr, key := Optional(m.csr), Optional(m.key);
    OneBlock(codec, CertificateBlock(m.cert));
    CertificateBlocksText(codec, m.chain, "", "");
    EncodeBlocksConcat(codec, chain, cert);
    EncodeBlocksConcat(codec, chain + cert, key);
    EncodeBlocksConcat(codec, cert, key);
    EncodeBlocksConcat(codec, cert, csr);
    EncodeBlocksConcat(codec, cert + csr, key);
    EncodeBlocksConcat(codec, cert + csr + key, chain);
  }

  lemma LayoutCertificates(codec: BodyCodec, m: Material, option: ChainOption)
    requires m.key.Some? ==> IsPrivateKey(m.key.value.typ)
    requires m.csr.Some? ==> m.csr.value.typ == "CERTIFICATE REQUEST"
    ensures CertificatesIn(Layout(m, option))
         == match option
            case RootFirst => m.chain + [m.cert]
            case IgnoreChain => [m.cert]
            case RootLast => [m.cert] + m.chain
  {
    var cert, chain := [CertificateBlock(m.cert)], CertificateBlocks(m.chain);
    var csr, key := Optional(m.csr), Optional(m.key);
    OneBlock(codec, CertificateBlock(m.cert));
    if m.csr.Some? {
      OneBlock(codec, m.csr.value);
    }
    if m.key.Some? {
      OneBlock(codec, m.key.value);
    }
    assert CertificatesIn(csr) == [] && CertificatesIn(key) == [];
    CertificateBlocksText(codec, m.chain, "", "");
    EncodeBlocksConcat(codec, chain, cert);
    EncodeBlocksConcat(codec, chain + cert, key);
    EncodeBlocksConcat(codec, cert, key);
    EncodeBlocksConcat(codec, cert, csr);
    EncodeBlocksConcat(codec, cert + csr, key);
    EncodeBlocksConcat(codec, cert + csr + key, chain);
  }

  /** What follows the key in the written text. */
  function AfterKey(codec: BodyCodec, m: Material, option: ChainOption): string {
    (if option == RootLast then Join(Pems(codec, m.chain), "") else "") + Pickup(m.pickupId)
  }

  lemma NoKeyIn(codec: BodyCodec, blocks: seq<PemBlock>, junk: string, none: string)
    requires forall k | 0 <= k < |blocks| :: !IsPrivateKey(blocks[k].typ)
    ensures FromLastKey(codec, blocks, junk, none) == none
  {}

  function BeforeKey(m: Material, option: ChainOption): seq<PemBlock> {
    var cert := [CertificateBlock(m.cert)];
    match option
    case RootFirst => CertificateBlocks(m.chain) + cert
    case IgnoreChain => cert
    case RootLast => cert + Optional(m.csr)
  }

  lemma NoKeyBefore(m: Material, option: ChainOption, k: nat)
    requires m.csr.Some? ==> m.csr.value.typ == "CERTIFICATE REQUEST"
    requires k < |BeforeKey(m, option)|
    ensures !IsPrivateKey(BeforeKey(m, option)[k].typ)
  {}

  lemma LayoutKey(codec: BodyCodec, m: Material, option: ChainOption)
    requires m.key.Some? ==> IsPrivateKey(m.key.value.typ)
    requires m.csr.Some? ==> m.csr.value.typ == "CERTIFICATE REQUEST"
    ensures FromLastKey(codec, Layout(m, option), Pickup(m.pickupId), "")
         == if m.key.Some? then EncodePem(codec, m.key.value) + AfterKey(codec, m, option) else ""
  {
    var before, pickup := BeforeKey(m, option), Pickup(m.pickupId);
    var after := if option == RootLast then CertificateBlocks(m.chain) else [];
    assert Layout(m, option) == before + (Optional(m.key) + after);
    CertificateBlocksText(codec, m.chain, "", "");
    forall k | 0 <= k < |before| ensures !IsPrivateKey(before[k].typ) {
      NoKeyBefore(m, option, k);
    }
    KeyInTheMiddle(codec, before, m.key, after, pickup);
  }

  /** With no other key before or after it, a key comes back with all that follows. */
  lemma KeyInTheMiddle(codec: BodyCodec, before: seq<PemBlock>, key: Option<PemBlock>, after: seq<PemBlock>,
                       junk: string)
    requires key.Some? ==> IsPrivateKey(key.value.typ)
    requires forall k | 0 <= k < |before| :: !IsPrivateKey(before[k].typ)
    requires forall k | 0 <= k < |after| :: !IsPrivateKey(after[k].typ)
    ensures FromLastKey(codec, before + (Optional(key) + after), junk, "")
         == if key.Some? then EncodePem(codec, key.value) + (EncodeBlocks(codec, after) + junk) else ""
  {
    var ks := Optional(key);
    NoKeyIn(codec, before, EncodeBlocks(codec, ks + after) + junk, "");
    FromLastKeyConcat(codec, before, ks + after, junk, "");
    FromLastKeyConcat(codec, ks, after, junk, "");
    NoKeyIn(codec, after, junk, FromLastKey(codec, ks, EncodeBlocks(codec, after) + junk, ""));
    if key.Some? {
      OneBlock(codec, key.value);
      assert ks[1..] == [];
    }
  }

  /** Writing and then reading with the same chain option gives back the certificate and the chain in
      order (no chain when it is ignored), passing over the signing request and the pickup id. The
      private key comes back with everything that was written after it. */
  lemma WriteThenRead(codec: BodyCodec, valid: seq<byte> -> bool, m: Material, option: ChainOption)
    requires Proper(codec, valid, m)
    ensures var o := OutputOf(codec, m);
            Collected(codec, valid, Format(o, option), option) == Ok(Contents(
              o.certificate,
              if m.key.Some? then o.privateKey + AfterKey(codec, m, option) else "",
              if option == IgnoreChain then [] else o.chain,
              ""))
  {
    var o, blocks := OutputOf(codec, m), Layout(m, option);
    LayoutText(codec, m, option);
    LayoutCertificates(codec, m, option);
    LayoutKey(codec, m, option);
    ProperLayout(codec, valid, m, option);
    ScanOfBlocks(codec, valid, blocks, Pickup(m.pickupId), [], "");
    Empty(CertificatesIn(blocks));
    ArrangedBack(codec, m.cert, m.chain, FromLastKey(codec, blocks, Pickup(m.pickupId), ""), option);
    if m.key.Some? {
      OneBlock(codec, m.key.value);
    }
  }

  lemma ArrangedBack(codec: BodyCodec, cert: seq<byte>, chain: seq<seq<byte>>, key: string, option: ChainOption)
    ensures var found := match option
                         case RootFirst => chain + [cert]
                         case IgnoreChain => [cert]
                         case RootLast => [cert] + chain;
            Arranged(codec, found, key, option)
            == Contents(CertificatePem(codec, cert), key, if option == IgnoreChain then [] else Pems(codec, chain), "")
  {
    Cut(chain, [cert]);
    Cut([cert], chain);
  }

  lemma ProperLayout(codec: BodyCodec, valid: seq<byte> -> bool, m: Material, option: ChainOption)
    requires Proper(codec, valid, m)
    ensures var blocks := Layout(m, option);
            forall k | 0 <= k < |blocks| ::
              Carries(codec, blocks[k]) && (blocks[k].typ == CERTIFICATE ==> valid(blocks[k].bytes))
  {}

  /** So the key comes back alone exactly when nothing was written after it: no pickup id, and with the
      root last no chain either. */
  lemma KeyAloneIff(codec: BodyCodec, valid: seq<byte> -> bool, m: Material, option: ChainOption)
    requires Proper(codec, valid, m) && m.key.Some?
    ensures var r := Collected(codec, valid, Format(OutputOf(codec, m), option), option);
            r.Ok? && (r.value.privateKey == OutputOf(codec, m).privateKey <==>
                      m.pickupId == "" && (option == RootLast ==> m.chain == []))
  {
    WriteThenRead(codec, valid, m, option);
    var o, after := OutputOf(codec, m), AfterKey(codec, m, option);
    if m.chain != [] {
      assert |Join(Pems(codec, m.chain), "")| >= |Pems(codec, m.chain)[0]| > 0;
    }
    assert o.privateKey + after == o.privateKey <==> after == "" by {
      assert |o.privateKey + after| == |o.privateKey| + |after|;
    }
  }

  /** The pickup id follows everything else, quoted and on a line of its own; an empty one leaves nothing. */
  lemma PickupLine(o: Output, option: ChainOption)
    ensures Format(o, option)
         == Format(o.(pickupId := ""), option) + if o.pickupId == "" then "" else "PickupID=\"" + o.pickupId + "\"\n"
  {
    var text := Format(o.(pickupId := ""), option);
    Empty(text);
  }

  /** The three layouts. */
  lemma Layouts(certificate: string, csr: string, key: string, first: string, second: string)
    ensures var o := Output(certificate, csr, key, [first, second], "");
            && Format(o, RootLast) == certificate + csr + key + (first + second)
            && Format(o, RootFirst) == (first + second) + certificate + key
            && Format(o, IgnoreChain) == certificate + key
  {
    assert Join([first, second], "") == first + second by {
      assert [first, second][1..] == [second];
      Empty(first);
    }
    Empty(certificate + csr + key + (first + second));
    Empty((first + second) + certificate + key);
    Empty(certificate + key);
  }

  /** A type whose block is taken for a private key. */
  predicate NamesKey(typ: string) {
    typ == "RSA PRIVATE KEY" || typ == "EC PRIVATE KEY" || typ == "ENCRYPTED PRIVATE KEY" || typ == "PRIVATE KEY"
  }

  lemma KeyIsNoCertificate(typ: string)
    ensures NamesKey(typ) ==> typ != "CERTIFICATE"
  {
    assert "CERTIFICATE"[0] == 'C' && "RSA PRIVATE KEY"[0] == 'R' && "PRIVATE KEY"[0] == 'P';
    assert "EC PRIVATE KEY"[0] == "ENCRYPTED PRIVATE KEY"[0] == 'E';
  }

  lemma ScanOfOne(codec: BodyCodec, valid: seq<byte> -> bool, b: PemBlock)
    requires Carries(codec, b)
    ensures var text := EncodePem(codec, b);
            Scan(codec, valid, text, [], "") ==
              if b.typ == "CERTIFICATE" then if valid(b.bytes) then Ok(([b.bytes], "")) else Err(InvalidCertificate)
              else Ok(([], if NamesKey(b.typ) then text else ""))
  {
    Empty(EncodePem(codec, b));
    DecodeEncoded(codec, b, "");
    assert DecodePem(codec, "") == None;
    assert [] + [b.bytes] == [b.bytes];
  }

  /** A block alone is taken for a private key exactly if it is of one of the four types, and for a
      certificate if it is that. */
  lemma OneBlockRead(codec: BodyCodec, valid: seq<byte> -> bool, b: PemBlock, option: ChainOption)
    requires Carries(codec, b)
    ensures var read := Collected(codec, valid, EncodePem(codec, b), option);
            && (NamesKey(b.typ) ==> read == Ok(Contents("", EncodePem(codec, b), [], "")))
            && (b.typ == "CERTIFICATE" ==>
                  read == if valid(b.bytes) then Ok(Contents(CertificatePem(codec, b.bytes), "", [], ""))
                          else Err(InvalidCertificate))
            && (!NamesKey(b.typ) && b.typ != "CERTIFICATE" ==> read == Ok(Contents("", "", [], "")))
  {
    KeyIsNoCertificate(b.typ);
    ScanOfOne(codec, valid, b);
    assert Pems(codec, []) == [];
  }
}

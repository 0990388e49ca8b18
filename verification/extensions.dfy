/** pkg/certificate: the extensions of a signing request (x509SubjectAltName.go, addSubjectAltNames;
    extKeyUsage.go, addExtKeyUsage; request.go, GenerateCSR). */
module Extensions {
  import opened Wrappers
  import opened Bytes
  import opened San

  /** 2.5.29.37 */
  const EKU_OID: seq<nat> := [2, 5, 29, 37]

  // ---------- extended key usages ----------

  /** The usages vcert names; any other value is unknown. */
  datatype ExtKeyUsage =
    | AnyUsage | ServerAuth | ClientAuth | CodeSigning | EmailProtection | IPSECEndSystem | IPSECTunnel | IPSECUser
    | TimeStamping | OCSPSigning | MicrosoftServerGatedCrypto | NetscapeServerGatedCrypto
    | MicrosoftCommercialCodeSigning | MicrosoftKernelCodeSigning | UnknownUsage

  function Oid(eku: ExtKeyUsage): Option<seq<nat>> {
    match eku
    case AnyUsage => Some([2, 5, 29, 37, 0])
    case ServerAuth => Some([1, 3, 6, 1, 5, 5, 7, 3, 1])
    case ClientAuth => Some([1, 3, 6, 1, 5, 5, 7, 3, 2])
    case CodeSigning => Some([1, 3, 6, 1, 5, 5, 7, 3, 3])
    case EmailProtection => Some([1, 3, 6, 1, 5, 5, 7, 3, 4])
    case IPSECEndSystem => Some([1, 3, 6, 1, 5, 5, 7, 3, 5])
    case IPSECTunnel => Some([1, 3, 6, 1, 5, 5, 7, 3, 6])
    case IPSECUser => Some([1, 3, 6, 1, 5, 5, 7, 3, 7])
    case TimeStamping => Some([1, 3, 6, 1, 5, 5, 7, 3, 8])
    case OCSPSigning => Some([1, 3, 6, 1, 5, 5, 7, 3, 9])
    case MicrosoftServerGatedCrypto => Some([1, 3, 6, 1, 4, 1, 311, 10, 3, 3])
    case NetscapeServerGatedCrypto => Some([2, 16, 840, 1, 113730, 4, 1])
    case MicrosoftCommercialCodeSigning => Some([1, 3, 6, 1, 4, 1, 311, 2, 1, 22])
    case MicrosoftKernelCodeSigning => Some([1, 3, 6, 1, 4, 1, 311, 61, 1, 1])
    case UnknownUsage => None
  }

  function KnownOids(ekus: seq<ExtKeyUsage>): seq<seq<nat>> {
    if ekus == [] then []
    else if Oid(ekus[0]).Some? then [Oid(ekus[0]).value] + KnownOids(ekus[1..])
    else KnownOids(ekus[1..])
  }

  lemma KnownOidsStep(ekus: seq<ExtKeyUsage>, i: nat)
    requires i < |ekus|
    ensures KnownOids(ekus[..i + 1]) == KnownOids(ekus[..i]) + if Oid(ekus[i]).Some? then [Oid(ekus[i]).value] else []
  {
    if i > 0 {
      KnownOidsStep(ekus[1..], i - 1);
      assert ekus[..i + 1][1..] == ekus[1..][..i] && ekus[..i][1..] == ekus[1..][..i - 1];
    } else {
      assert ekus[..1] == [ekus[0]];
    }
  }

  // ---------- extension lists ----------

  function Without(exts: seq<Extension>, id: seq<nat>): seq<Extension> {
    if exts == [] then []
    else if exts[0].id != id then [exts[0]] + Without(exts[1..], id)
    else Without(exts[1..], id)
  }

  function Count(exts: seq<Extension>, id: seq<nat>): nat {
    if exts == [] then 0 else (if exts[0].id == id then 1 else 0) + Count(exts[1..], id)
  }

  lemma WithoutStep(exts: seq<Extension>, id: seq<nat>, i: nat)
    requires i < |exts|
    ensures Without(exts[..i + 1], id) == Without(exts[..i], id) + if exts[i].id != id then [exts[i]] else []
  {
    if i > 0 {
      WithoutStep(exts[1..], id, i - 1);
      assert exts[..i + 1][1..] == exts[1..][..i] && exts[..i][1..] == exts[1..][..i - 1];
    } else {
      assert exts[..1] == [exts[0]];
    }
  }

  lemma {:induction false} CountAfterWithout(exts: seq<Extension>, id: seq<nat>, other: seq<nat>)
    ensures Count(Without(exts, id), other) == if other == id then 0 else Count(exts, other)
  {
    if exts != [] {
      CountAfterWithout(exts[1..], id, other);
      var kept := Without(exts, id);
      if exts[0].id != id {
        assert kept[1..] == Without(exts[1..], id);
      }
    }
  }

  lemma {:induction false} WithoutTwice(exts: seq<Extension>, a: seq<nat>, b: seq<nat>)
    ensures Without(Without(exts, a), b) == Without(Without(exts, b), a)
    ensures Without(Without(exts, a), a) == Without(exts, a)
  {
    if exts != [] {
      WithoutTwice(exts[1..], a, b);
      var x, y := Without(exts, a), Without(exts, b);
      if exts[0].id != a {
        assert x[1..] == Without(exts[1..], a);
      }
      if exts[0].id != b {
        assert y[1..] == Without(exts[1..], b);
      }
    }
  }

  /** What adding one extension does to a list: it comes first, and replaces all of its kind. */
  function Replaced(ext: Extension, exts: seq<Extension>): seq<Extension> {
    [ext] + Without(exts, ext.id)
  }

  lemma ReplacedCounts(ext: Extension, exts: seq<Extension>, id: seq<nat>)
    ensures Count(Replaced(ext, exts), id) == if id == ext.id then 1 else Count(exts, id)
    ensures Without(Replaced(ext, exts), ext.id) == Without(exts, ext.id)
    ensures id != ext.id ==> Without(Replaced(ext, exts), id) == [ext] + Without(Without(exts, ext.id), id)
  {
    assert Replaced(ext, exts)[1..] == Without(exts, ext.id);
    CountAfterWithout(exts, ext.id, id);
    WithoutTwice(exts, ext.id, ext.id);
  }

  // ---------- the request as the source changes it ----------

  /** The encoding of a list of object identifiers is left to the library. */
  type OidEncoder = seq<seq<nat>> -> seq<byte>

  function SanExtension(subject: string, der: seq<byte>): Extension {
    Extension(SAN_OID, subject == "", der)
  }

  /** The extension list after addExtKeyUsage: unchanged if no usage is known. */
  function WithEku(encode: OidEncoder, ekus: seq<ExtKeyUsage>, exts: seq<Extension>): seq<Extension> {
    if KnownOids(ekus) == [] then exts else Replaced(Extension(EKU_OID, false, encode(KnownOids(ekus))), exts)
  }

  /** crypto/x509's request template: the name fields it would turn into an extension of its own, and
      the extra extensions. `subject` is the text of the subject. */
  class CertificateRequest {
    var subject: string
    var dnsNames: seq<Text>
    var emailAddresses: seq<Text>
    var ipAddresses: seq<seq<byte>>
    var uris: seq<Text>
    var extraExtensions: seq<Extension>

    constructor (subject: string)
      ensures this.subject == subject && extraExtensions == []
      ensures dnsNames == [] && emailAddresses == [] && ipAddresses == [] && uris == []
    {
      this.subject := subject;
      dnsNames, emailAddresses, ipAddresses, uris, extraExtensions := [], [], [], [], [];
    }

    method KeepOthers(id: seq<nat>, first: Extension)
      modifies this`extraExtensions
      ensures extraExtensions == [first] + Without(old(extraExtensions), id)
    {
      var updatedExts := [first];
      for i := 0 to |extraExtensions|
        invariant extraExtensions == old(extraExtensions)
        invariant updatedExts == [first] + Without(extraExtensions[..i], id)
      {
        WithoutStep(extraExtensions, id, i);
        if extraExtensions[i].id != id {
          updatedExts := updatedExts + [extraExtensions[i]];
        }
      }
      assert extraExtensions[..|extraExtensions|] == extraExtensions;
      extraExtensions := updatedExts;
    }

    /** False stands for the process exit when the names cannot be written. */
    method AddSubjectAltNames(decode: StringDecoder, names: Names) returns (ok: bool)
      modifies this
      ensures subject == old(subject)
      ensures ok == Marshalled(decode, names).Ok?
      ensures ok ==>
                extraExtensions
                == Replaced(SanExtension(subject, Marshalled(decode, names).value), old(extraExtensions))
      ensures ok ==> dnsNames == [] && emailAddresses == [] && ipAddresses == [] && uris == []
    {
      var sanBytes := MarshalSANs(decode, names);
      if !sanBytes.Ok? {
        return false;
      }
      var sanExtCritical := subject == "";
      KeepOthers(SAN_OID, Extension(SAN_OID, sanExtCritical, sanBytes.value));
      dnsNames, emailAddresses, ipAddresses, uris := [], [], [], [];
      return true;
    }

    method AddExtKeyUsage(encode: OidEncoder, ekus: seq<ExtKeyUsage>)
      modifies this`extraExtensions
      ensures extraExtensions == WithEku(encode, ekus, old(extraExtensions))
    {
      var oidToAdd: seq<seq<nat>> := [];
      for i := 0 to |ekus|
        invariant oidToAdd == KnownOids(ekus[..i]) && extraExtensions == old(extraExtensions)
      {
        KnownOidsStep(ekus, i);
        var oid := Oid(ekus[i]);
        if oid.Some? {
          oidToAdd := oidToAdd + [oid.value];
        }
      }
      assert ekus[..|ekus|] == ekus;
      if |oidToAdd| < 1 {
        return;
      }
      KeepOthers(EKU_OID, Extension(EKU_OID, false, encode(oidToAdd)));
    }
  }

  /** The extensions GenerateCSR signs: the names and usages asked for, unless the request brings a
      list of its own, which is then used as it is. */
  function SignedExtensions(decode: StringDecoder, encode: OidEncoder, subject: string, omitSANs: bool, names: Names,
                            ekus: Option<seq<ExtKeyUsage>>, extra: Option<seq<Extension>>): Option<seq<Extension>>
  {
    if !omitSANs && !Marshalled(decode, names).Ok? then None
    else
      var start := if omitSANs then [] else Replaced(SanExtension(subject, Marshalled(decode, names).value), []);
      var all := if ekus.Some? then WithEku(encode, ekus.value, start) else start;
      Some(if extra.Some? then extra.value else all)
  }

  method GenerateCSR(decode: StringDecoder, encode: OidEncoder, subject: string, omitSANs: bool, names: Names,
                     ekus: Option<seq<ExtKeyUsage>>, extra: Option<seq<Extension>>)
    returns (exts: Option<seq<Extension>>)
    ensures exts == SignedExtensions(decode, encode, subject, omitSANs, names, ekus, extra)
  {
    var request := new CertificateRequest(subject);
    if !omitSANs {
      var ok := request.AddSubjectAltNames(decode, names);
      if !ok {
        return None;
      }
    }
    if ekus.Some? {
      request.AddExtKeyUsage(encode, ekus.value);
    }
    if extra.Some? {
      request.extraExtensions := extra.value;
    }
    return Some(request.extraExtensions);
  }

  // ---------- theorems ----------

  /** Adding names and then usages, from any starting list: exactly one subject alternative name
      extension, critical exactly when the subject is empty (section 4.1.2.6 of RFC 5280); one
      key-usage extension if some usage is known and otherwise those that were there; and every
      other extension once, in its original order. */
  lemma SanThenEku(encode: OidEncoder, subject: string, der: seq<byte>, ekus: seq<ExtKeyUsage>, exts: seq<Extension>)
    ensures var san := SanExtension(subject, der);
            var r := WithEku(encode, ekus, Replaced(san, exts));
            && Count(r, SAN_OID) == 1 && san in r && (san.critical <==> subject == "")
            && Count(r, EKU_OID) == (if KnownOids(ekus) != [] then 1 else Count(exts, EKU_OID))
            && Without(Without(r, SAN_OID), EKU_OID) == Without(Without(exts, SAN_OID), EKU_OID)
  {
    var san := SanExtension(subject, der);
    var withSan := Replaced(san, exts);
    ReplacedCounts(san, exts, SAN_OID);
    ReplacedCounts(san, exts, EKU_OID);
    if KnownOids(ekus) != [] {
      var eku := Extension(EKU_OID, false, encode(KnownOids(ekus)));
      ReplacedCounts(eku, withSan, SAN_OID);
      ReplacedCounts(eku, withSan, EKU_OID);
      var r := Replaced(eku, withSan);
      WithoutTwice(r, SAN_OID, EKU_OID);
      WithoutTwice(withSan, SAN_OID, EKU_OID);
      assert r[1..][0] == san;
    }
  }

  /** So two key-usage extensions can only remain if they were there and no usage asked for is known. */
  lemma AtMostOneEkuIff(encode: OidEncoder, subject: string, der: seq<byte>, ekus: seq<ExtKeyUsage>,
                        exts: seq<Extension>)
    ensures Count(WithEku(encode, ekus, Replaced(SanExtension(subject, der), exts)), EKU_OID) <= 1
       <==> KnownOids(ekus) != [] || Count(exts, EKU_OID) <= 1
  {
    SanThenEku(encode, subject, der, ekus, exts);
  }

  /** A generated request carries exactly one subject alternative name extension, unless names are
      omitted or the request's own list replaces everything. */
  lemma GeneratedSanCount(decode: StringDecoder, encode: OidEncoder, subject: string, omitSANs: bool, names: Names,
                          ekus: Option<seq<ExtKeyUsage>>, extra: Option<seq<Extension>>)
    ensures var r := SignedExtensions(decode, encode, subject, omitSANs, names, ekus, extra);
            r.Some? ==>
              Count(r.value, SAN_OID)
              == (if extra.Some? then Count(extra.value, SAN_OID) else if omitSANs then 0 else 1)
  {
    if !omitSANs && Marshalled(decode, names).Ok? {
      SanThenEku(encode, subject, Marshalled(decode, names).value, ekus.GetOr([]), []);
    }
  }

  // ---------- what is in the extensions ----------

  /** The identifiers of a list are those of its known usages, in order. */
  lemma {:induction false} KnownOidsConcat(a: seq<ExtKeyUsage>, b: seq<ExtKeyUsage>)
    ensures KnownOids(a + b) == KnownOids(a) + KnownOids(b)
  {
    if a == [] {
      assert a + b == b;
    } else {
      assert (a + b)[1..] == a[1..] + b;
      KnownOidsConcat(a[1..], b);
    }
  }

  lemma KnownOidsOfOne(e: ExtKeyUsage)
    ensures KnownOids([e]) == match Oid(e) case Some(oid) => [oid] case None => []
  {
    assert [e][1..] == [];
  }

  lemma UnderPkix(arc: nat)
    ensures [1, 3, 6, 1, 5, 5, 7, 3] + [arc] == [1, 3, 6, 1, 5, 5, 7, 3, arc]
  {}

  /** The purposes of section 4.2.1.12 of RFC 5280, and its predecessors' for IPsec, in the order of their
      last number. */
  lemma PurposeOids(k: nat)
    requires 1 <= k <= 9
    ensures var purposes := [ServerAuth, ClientAuth, CodeSigning, EmailProtection, IPSECEndSystem, IPSECTunnel,
                             IPSECUser, TimeStamping, OCSPSigning];
            Oid(purposes[k - 1]) == Some([1, 3, 6, 1, 5, 5, 7, 3] + [k])
  {
    UnderPkix(k);
  }

  /** Any usage, those of two companies, and no other. */
  lemma OtherOids()
    ensures Oid(AnyUsage) == Some(EKU_OID + [0]) && EKU_OID == [2, 5, 29, 37]
    ensures Oid(MicrosoftServerGatedCrypto) == Some([1, 3, 6, 1, 4, 1, 311] + [10, 3, 3])
    ensures Oid(MicrosoftCommercialCodeSigning) == Some([1, 3, 6, 1, 4, 1, 311] + [2, 1, 22])
    ensures Oid(MicrosoftKernelCodeSigning) == Some([1, 3, 6, 1, 4, 1, 311] + [61, 1, 1])
    ensures Oid(NetscapeServerGatedCrypto) == Some([2, 16, 840, 1, 113730] + [4, 1])
    ensures Oid(UnknownUsage) == None
  {
    assert [2, 5, 29, 37] + [0] == [2, 5, 29, 37, 0];
    assert [1, 3, 6, 1, 4, 1, 311] + [10, 3, 3] == [1, 3, 6, 1, 4, 1, 311, 10, 3, 3];
    assert [1, 3, 6, 1, 4, 1, 311] + [2, 1, 22] == [1, 3, 6, 1, 4, 1, 311, 2, 1, 22];
    assert [1, 3, 6, 1, 4, 1, 311] + [61, 1, 1] == [1, 3, 6, 1, 4, 1, 311, 61, 1, 1];
    assert [2, 16, 840, 1, 113730] + [4, 1] == [2, 16, 840, 1, 113730, 4, 1];
  }

  /** A generated request without extensions of its own carries the usages, never critical, unless none is
      known, and then the names, critical exactly if the subject is empty, unless they are omitted. */
  lemma GeneratedExtensions(decode: StringDecoder, encode: OidEncoder, subject: string, omitSANs: bool, names: Names,
                            ekus: Option<seq<ExtKeyUsage>>, extra: Option<seq<Extension>>)
    ensures var r := SignedExtensions(decode, encode, subject, omitSANs, names, ekus, extra);
            var oids := KnownOids(ekus.GetOr([]));
            && (r == None <==> !omitSANs && !Marshalled(decode, names).Ok?)
            && (r.Some? && extra.Some? ==> r == extra)
            && (r.Some? && extra == None ==>
                  r.value == (if oids != [] then [Extension([2, 5, 29, 37], false, encode(oids))] else [])
                             + if omitSANs then []
                               else [Extension([2, 5, 29, 17], subject == "", Marshalled(decode, names).value)])
  {
    if omitSANs || Marshalled(decode, names).Ok? {
      var oids := KnownOids(ekus.GetOr([]));
      var start := if omitSANs then [] else [SanExtension(subject, Marshalled(decode, names).value)];
      assert !omitSANs ==> Replaced(SanExtension(subject, Marshalled(decode, names).value), []) == start;
      assert SAN_OID[3] != EKU_OID[3];
      assert start != [] ==> start[1..] == [];
      assert Without(start, EKU_OID) == start;
      assert [] + start == start;
    }
  }
}

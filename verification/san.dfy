/** pkg/certificate/x509SubjectAltName.go: writing the subject alternative name extension, and
    reading user principal names out of it. Texts are their bytes. */
module San {
  import opened Wrappers
  import opened Seqs
  import opened Bytes
  import opened Der

  type Text = seq<byte>

  // Universal tags (X.690) and the tags of a GeneralName (section 4.2.1.6 of RFC 5280).

  const TAG_OID := 6
  const TAG_UTF8 := 12
  const TAG_SEQUENCE := 16
  const NAME_OTHER := 0
  const NAME_EMAIL := 1
  const NAME_DNS := 2
  const NAME_URI := 6
  const NAME_IP := 7

  /** 2.5.29.17, and the contents octets of 1.3.6.1.4.1.311.20.2.3. */
  const SAN_OID: seq<nat> := [2, 5, 29, 17]
  const UPN_OID: seq<byte> := [43, 6, 1, 4, 1, 130, 55, 20, 2, 3]

  /** How the library decodes the contents of a character string of a given universal tag: None if
      the tag is no string type or the contents are invalid. A UTF8String stands for its bytes. */
  type StringDecoder = (nat, seq<byte>) -> Option<Text>

  ghost predicate DecodesUtf8(decode: StringDecoder) {
    forall b: seq<byte> :: decode(TAG_UTF8, b) == None || decode(TAG_UTF8, b) == Some(b)
  }

  predicate ValidUtf8(decode: StringDecoder, b: Text) {
    decode(TAG_UTF8, b).Some?
  }

  // ---------- writing ----------

  function NameTlv(tag: nat, bytes: seq<byte>): (t: Tlv)
    requires tag < 31
    ensures WellFormed(t)
  {
    Tlv(2, false, tag, bytes)
  }

  /** `net.IP.To4`: an IPv4 address in four bytes, if it is one. */
  function To4(ip: seq<byte>): Option<seq<byte>> {
    if |ip| == 4 then Some(ip)
    else if |ip| == 16 && (forall k | 0 <= k < 10 :: ip[k] == 0) && ip[10] == 255 && ip[11] == 255 then Some(ip[12..])
    else None
  }

  /** The contents of an otherName that holds a user principal name. */
  function UpnContents(upn: Text): seq<byte> {
    Encode(Tlv(0, false, TAG_OID, UPN_OID)) + Encode(Tlv(2, true, 0, Encode(Tlv(0, false, TAG_UTF8, upn))))
  }

  function UpnTlv(upn: Text): (t: Tlv)
    ensures WellFormed(t)
  {
    Tlv(2, true, NAME_OTHER, UpnContents(upn))
  }

  datatype Names = Names(dns: seq<Text>, emails: seq<Text>, ips: seq<seq<byte>>, uris: seq<Text>, upns: seq<Text>)

  function Tagged(tag: nat, values: seq<seq<byte>>): (r: seq<Tlv>)
    requires tag < 31
    ensures |r| == |values| && forall k | 0 <= k < |r| :: WellFormed(r[k]) && r[k] == NameTlv(tag, values[k])
  {
    seq(|values|, k requires 0 <= k < |values| => NameTlv(tag, values[k]))
  }

  function ShortIps(ips: seq<seq<byte>>): (r: seq<seq<byte>>)
    ensures |r| == |ips|
  {
    seq(|ips|, k requires 0 <= k < |ips| => To4(ips[k]).GetOr(ips[k]))
  }

  function UpnTlvs(upns: seq<Text>): (r: seq<Tlv>)
    ensures |r| == |upns| && forall k | 0 <= k < |r| :: WellFormed(r[k]) && r[k] == UpnTlv(upns[k])
  {
    seq(|upns|, k requires 0 <= k < |upns| => UpnTlv(upns[k]))
  }

  /** The general names, in the order they are written. */
  function GeneralNames(n: Names): (r: seq<Tlv>)
    ensures forall k | 0 <= k < |r| :: WellFormed(r[k])
  {
    Tagged(NAME_DNS, n.dns) + Tagged(NAME_EMAIL, n.emails) + Tagged(NAME_IP, ShortIps(n.ips)) +
    Tagged(NAME_URI, n.uris) + UpnTlvs(n.upns)
  }

  function Sequence(contents: seq<byte>): (t: Tlv)
    ensures WellFormed(t)
  {
    Tlv(0, true, TAG_SEQUENCE, contents)
  }

  datatype SanError = CouldNotParseOtherName | CouldNotParse(e: DerError) | TrailingData | BadSequence

  /** `asn1.Marshal` of an otherName: nothing at all if the name is not valid UTF-8, an error that
      marshalSANs ignores. */
  function MarshalOtherName(decode: StringDecoder, upn: Text): seq<byte> {
    if ValidUtf8(decode, upn) then Encode(Sequence(UpnContents(upn))) else []
  }

  /** Whether marshalSANs can write the name: it reads its own encoding back. */
  predicate WritableUpn(decode: StringDecoder, upn: Text) {
    ValidUtf8(decode, upn) && |UpnContents(upn)| < READ_LIMIT
  }

  lemma RewrapUpn(decode: StringDecoder, upn: Text)
    ensures var r := Read(MarshalOtherName(decode, upn));
            && (r.Ok? <==> WritableUpn(decode, upn))
            && (r.Ok? ==> r == Ok((Sequence(UpnContents(upn)), [])))
  {
    var t := Sequence(UpnContents(upn));
    if ValidUtf8(decode, upn) {
      assert MarshalOtherName(decode, upn) == Encode(t) + [];
      if |t.bytes| < READ_LIMIT {
        ReadIff(Encode(t) + [], t, []);
      } else {
        TooLongIsRefused(t, []);
      }
    }
  }

  /** What marshalSANs returns. */
  function Marshalled(decode: StringDecoder, n: Names): Outcome<seq<byte>, SanError> {
    if forall k | 0 <= k < |n.upns| :: WritableUpn(decode, n.upns[k]) then
      Ok(Encode(Sequence(EncodeAll(GeneralNames(n)))))
    else Err(CouldNotParseOtherName)
  }

  method MarshalPlainNames(n: Names) returns (rawValues: seq<Tlv>)
    ensures rawValues == Tagged(NAME_DNS, n.dns) + Tagged(NAME_EMAIL, n.emails) + Tagged(NAME_IP, ShortIps(n.ips)) +
                         Tagged(NAME_URI, n.uris)
  {
    rawValues := [];
    for i := 0 to |n.dns|
      invariant rawValues == Tagged(NAME_DNS, n.dns)[..i]
    {
      rawValues := rawValues + [Tlv(2, false, NAME_DNS, n.dns[i])];
    }
    ghost var before := Tagged(NAME_DNS, n.dns);
    for i := 0 to |n.emails|
      invariant rawValues == before + Tagged(NAME_EMAIL, n.emails)[..i]
    {
      rawValues := rawValues + [Tlv(2, false, NAME_EMAIL, n.emails[i])];
    }
    before := before + Tagged(NAME_EMAIL, n.emails);
    for i := 0 to |n.ips|
      invariant rawValues == before + Tagged(NAME_IP, ShortIps(n.ips))[..i]
    {
      var ip := To4(n.ips[i]);
      if ip == None {
        ip := Some(n.ips[i]);
      }
      rawValues := rawValues + [Tlv(2, false, NAME_IP, ip.value)];
    }
    before := before + Tagged(NAME_IP, ShortIps(n.ips));
    for i := 0 to |n.uris|
      invariant rawValues == before + Tagged(NAME_URI, n.uris)[..i]
    {
      rawValues := rawValues + [Tlv(2, false, NAME_URI, n.uris[i])];
    }
  }

  /** A name is marshalled as a sequence, read back, and its contents wrapped with another tag. */
  method Rewrap(decode: StringDecoder, upn: Text) returns (r: Option<Tlv>)
    ensures r == if WritableUpn(decode, upn) then Some(UpnTlv(upn)) else None
  {
    var raw := Read(MarshalOtherName(decode, upn));
    RewrapUpn(decode, upn);
    r := if raw.Ok? then Some(Tlv(2, true, NAME_OTHER, raw.value.0.bytes)) else None;
  }

  method MarshalSANs(decode: StringDecoder, n: Names) returns (r: Outcome<seq<byte>, SanError>)
    ensures r == Marshalled(decode, n)
  {
    var rawValues := MarshalPlainNames(n);
    ghost var before := rawValues;
    for i := 0 to |n.upns|
      invariant rawValues == before + UpnTlvs(n.upns)[..i]
      invariant forall k | 0 <= k < i :: WritableUpn(decode, n.upns[k])
    {
      var rewrapped := Rewrap(decode, n.upns[i]);
      if rewrapped == None {
        return Err(CouldNotParseOtherName);
      }
      rawValues := rawValues + [rewrapped.value];
      OneMore(UpnTlvs(n.upns), i);
      Assoc(before, UpnTlvs(n.upns)[..i], [UpnTlv(n.upns[i])]);
    }
    assert rawValues == GeneralNames(n);
    return Ok(Encode(Sequence(EncodeAll(rawValues))));
  }

  // ---------- reading ----------

  /** Object identifier contents: whole base-128 numbers in their shortest form. */
  predicate ValidOid(b: seq<byte>) {
    && b != [] && b[0] != 128 && b[|b| - 1] < 128
    && forall k | 0 < k < |b| && b[k - 1] < 128 :: b[k] != 128
  }

  /** parseUserPrincipalNameSAN on one general name: the empty text if it is no user principal
      name. Bytes after a structure's known fields are ignored. */
  function ParseUpn(decode: StringDecoder, v: Tlv): Outcome<Text, SanError> {
    if v.tag != NAME_OTHER then Ok([])
    else if v.cls != 2 || !v.compound then Err(CouldNotParseOtherName)
    else
      match Read(v.bytes)
      case Err(_) => Err(CouldNotParseOtherName)
      case Panic => Panic
      case Ok((oid, rest)) =>
        if oid.cls != 0 || oid.compound || oid.tag != TAG_OID || !ValidOid(oid.bytes) then Err(CouldNotParseOtherName)
        else
          match Read(rest)
          case Err(_) => Err(CouldNotParseOtherName)
          case Panic => Panic
          case Ok((value, _)) =>
            if value.cls != 2 || !value.compound || value.tag != 0 then Err(CouldNotParseOtherName)
            else
              match Read(value.bytes)
              case Err(_) => Err(CouldNotParseOtherName)
              case Panic => Panic
              case Ok((text, _)) =>
                if text.cls != 0 || text.compound then Err(CouldNotParseOtherName)
                else
                  match decode(text.tag, text.bytes)
                  case None => Err(CouldNotParseOtherName)
                  case Some(name) => Ok(if oid.bytes == UPN_OID then name else [])
  }

  /** The user principal names among the values at the front of `data`, read one by one. */
  function ReadUpns(decode: StringDecoder, data: seq<byte>): Outcome<seq<Text>, SanError>
    decreases |data|
  {
    if data == [] then Ok([])
    else
      match Read(data)
      case Err(e) => Err(CouldNotParse(e))
      case Panic => Panic
      case Ok((v, rest)) =>
        match ParseUpn(decode, v)
        case Err(e) => Err(e)
        case Panic => Panic
        case Ok(upn) =>
          match ReadUpns(decode, rest)
          case Err(e) => Err(e)
          case Panic => Panic
          case Ok(upns) => Ok(if upn != [] then [upn] + upns else upns)
  }

  datatype Extension = Extension(id: seq<nat>, critical: bool, value: seq<byte>)

  /** One subject alternative name extension. */
  function UpnsOfValue(decode: StringDecoder, value: seq<byte>): Outcome<seq<Text>, SanError> {
    match Read(value)
    case Err(e) => Err(CouldNotParse(e))
    case Panic => Panic
    case Ok((s, rest)) =>
      if rest != [] then Err(TrailingData)
      else if !s.compound || s.tag != TAG_SEQUENCE || s.cls != 0 then Err(BadSequence)
      else ReadUpns(decode, s.bytes)
  }

  function UpnsOf(decode: StringDecoder, exts: seq<Extension>): Outcome<seq<Text>, SanError> {
    if exts == [] then Ok([])
    else if exts[0].id != SAN_OID then UpnsOf(decode, exts[1..])
    else
      match UpnsOfValue(decode, exts[0].value)
      case Err(e) => Err(e)
      case Panic => Panic
      case Ok(first) =>
        match UpnsOf(decode, exts[1..])
        case Err(e) => Err(e)
        case Panic => Panic
        case Ok(others) => Ok(first + others)
  }

  /** The outcome of a loop that has collected `done` and still has `rest` to come. */
  function After(done: seq<Text>, rest: Outcome<seq<Text>, SanError>): Outcome<seq<Text>, SanError> {
    match rest
    case Ok(upns) => Ok(done + upns)
    case Err(e) => Err(e)
    case Panic => Panic
  }

  lemma AfterNothing(r: Outcome<seq<Text>, SanError>)
    ensures After([], r) == r
  {
    if r.Ok? {
      assert [] + r.value == r.value;
    }
  }

  /** The inner loop of getUserPrincipalNameSANs, over one sequence's contents. */
  method CollectUpns(decode: StringDecoder, contents: seq<byte>) returns (r: Outcome<seq<Text>, SanError>)
    ensures r == ReadUpns(decode, contents)
  {
    var ret: seq<Text> := [];
    var rest := contents;
    AfterNothing(ReadUpns(decode, contents));
    while |rest| > 0
      invariant After(ret, ReadUpns(decode, rest)) == ReadUpns(decode, contents)
      decreases |rest|
    {
      var v := Read(rest);
      if !v.Ok? {
        return match v case Err(e) => Err(CouldNotParse(e)) case _ => Panic;
      }
      var upn := ParseUpn(decode, v.value.0);
      if !upn.Ok? {
        return match upn case Err(e) => Err(e) case _ => Panic;
      }
      rest := v.value.1;
      if upn.value != [] {
        AfterOne(ret, upn.value, ReadUpns(decode, rest));
        ret := ret + [upn.value];
      }
    }
    assert ret + [] == ret;
    return Ok(ret);
  }

  lemma AfterOne(done: seq<Text>, upn: Text, rest: Outcome<seq<Text>, SanError>)
    ensures After(done + [upn], rest) == After(done, After([upn], rest))
  {
    if rest.Ok? {
      assert (done + [upn]) + rest.value == done + ([upn] + rest.value);
    }
  }

  /** The body of getUserPrincipalNameSANs for one extension. */
  method CollectFromExtension(decode: StringDecoder, value: seq<byte>) returns (r: Outcome<seq<Text>, SanError>)
    ensures r == UpnsOfValue(decode, value)
  {
    var s := Read(value);
    if !s.Ok? {
      return match s case Err(e) => Err(CouldNotParse(e)) case _ => Panic;
    }
    var (sequence, rest) := s.value;
    if |rest| != 0 {
      return Err(TrailingData);
    }
    if !sequence.compound || sequence.tag != 16 || sequence.cls != 0 {
      return Err(BadSequence);
    }
    r := CollectUpns(decode, sequence.bytes);
  }

  method GetUserPrincipalNameSANs(decode: StringDecoder, exts: seq<Extension>) returns (r: Outcome<seq<Text>, SanError>)
    ensures r == UpnsOf(decode, exts)
  {
    var ret: seq<Text> := [];
    assert exts[0..] == exts;
    AfterNothing(UpnsOf(decode, exts));
    for i := 0 to |exts|
      invariant After(ret, UpnsOf(decode, exts[i..])) == UpnsOf(decode, exts)
    {
      assert exts[i..][1..] == exts[i + 1..];
      if exts[i].id != SAN_OID {
        continue;
      }
      var upns := CollectFromExtension(decode, exts[i].value);
      if !upns.Ok? {
        return upns;
      }
      if UpnsOf(decode, exts[i + 1..]).Ok? {
        Assoc(ret, upns.value, UpnsOf(decode, exts[i + 1..]).value);
      }
      ret := ret + upns.value;
    }
    assert ret + [] == ret;
    return Ok(ret);
  }

  // ---------- theorems ----------

  /** The nonempty texts of a list, in order. */
  function NonEmptyOf(values: seq<Text>): seq<Text> {
    if values == [] then []
    else (if values[0] != [] then [values[0]] else []) + NonEmptyOf(values[1..])
  }

  lemma ParsedFromParts(decode: StringDecoder, v: Tlv, oid: Tlv, rest: seq<byte>, value: Tlv, text: Tlv)
    requires v.tag == NAME_OTHER && v.cls == 2 && v.compound
    requires Read(v.bytes) == Ok((oid, rest)) && Read(rest) == Ok((value, [])) && Read(value.bytes) == Ok((text, []))
    requires oid.cls == 0 && !oid.compound && oid.tag == TAG_OID && ValidOid(oid.bytes)
    requires value.cls == 2 && value.compound && value.tag == 0 && text.cls == 0 && !text.compound
    requires decode(text.tag, text.bytes).Some? && oid.bytes == UPN_OID
    ensures ParseUpn(decode, v) == Ok(decode(text.tag, text.bytes).value)
  {}

  lemma EncodedAloneIsRead(t: Tlv)
    requires Readable(t)
    ensures Read(Encode(t)) == Ok((t, []))
  {
    Empty(Encode(t));
    EncodedIsRead(t, []);
  }

  lemma UpnPartsReadable(upn: Text)
    requires |UpnContents(upn)| < READ_LIMIT
    ensures ValidOid(UPN_OID) && Readable(Tlv(0, false, TAG_OID, UPN_OID))
    ensures var text := Tlv(0, false, TAG_UTF8, upn);
            Readable(text) && Readable(Tlv(2, true, 0, Encode(text)))
  {}

  /** A written user principal name is read back. */
  lemma ParseWrittenUpn(decode: StringDecoder, upn: Text)
    requires DecodesUtf8(decode) && WritableUpn(decode, upn)
    ensures ParseUpn(decode, UpnTlv(upn)) == Ok(upn)
  {
    var oid := Tlv(0, false, TAG_OID, UPN_OID);
    var text := Tlv(0, false, TAG_UTF8, upn);
    var value := Tlv(2, true, 0, Encode(text));
    UpnPartsReadable(upn);
    EncodedIsRead(oid, Encode(value));
    EncodedAloneIsRead(value);
    EncodedAloneIsRead(text);
    ParsedFromParts(decode, UpnTlv(upn), oid, Encode(value), value, text);
  }

  /** Values that are no otherName contribute nothing. */
  lemma {:induction false} OtherKindsGiveNothing(decode: StringDecoder, ts: seq<Tlv>, rest: seq<byte>)
    requires forall k | 0 <= k < |ts| :: WellFormed(ts[k])
    requires forall k | 0 <= k < |ts| :: Readable(ts[k]) && ts[k].tag != NAME_OTHER
    ensures ReadUpns(decode, EncodeAll(ts) + rest) == ReadUpns(decode, rest)
  {
    if ts == [] {
      assert EncodeAll(ts) + rest == rest;
    } else {
      var after := EncodeAll(ts[1..]) + rest;
      assert EncodeAll(ts) + rest == Encode(ts[0]) + after;
      ReadIff(EncodeAll(ts) + rest, ts[0], after);
      OtherKindsGiveNothing(decode, ts[1..], rest);
    }
  }

  lemma ReadWrittenUpn(decode: StringDecoder, upn: Text, rest: seq<byte>, others: seq<Text>)
    requires DecodesUtf8(decode) && WritableUpn(decode, upn)
    requires ReadUpns(decode, rest) == Ok(others)
    ensures ReadUpns(decode, Encode(UpnTlv(upn)) + rest) == Ok(if upn != [] then [upn] + others else others)
  {
    ReadIff(Encode(UpnTlv(upn)) + rest, UpnTlv(upn), rest);
    ParseWrittenUpn(decode, upn);
  }

  lemma {:induction false} WrittenUpnsAreRead(decode: StringDecoder, upns: seq<Text>)
    requires DecodesUtf8(decode)
    requires forall k | 0 <= k < |upns| :: WritableUpn(decode, upns[k])
    ensures ReadUpns(decode, EncodeAll(UpnTlvs(upns))) == Ok(NonEmptyOf(upns))
  {
    if upns != [] {
      var ts := UpnTlvs(upns);
      assert ts[1..] == UpnTlvs(upns[1..]);
      WrittenUpnsAreRead(decode, upns[1..]);
      ReadWrittenUpn(decode, upns[0], EncodeAll(ts[1..]), NonEmptyOf(upns[1..]));
      assert [] + NonEmptyOf(upns[1..]) == NonEmptyOf(upns[1..]);
    }
  }

  lemma {:induction false} EncodeAllConcat(a: seq<Tlv>, b: seq<Tlv>)
    requires (forall k | 0 <= k < |a| :: WellFormed(a[k])) && (forall k | 0 <= k < |b| :: WellFormed(b[k]))
    ensures EncodeAll(a + b) == EncodeAll(a) + EncodeAll(b)
  {
    if a == [] {
      assert a + b == b;
    } else {
      assert (a + b)[1..] == a[1..] + b;
      EncodeAllConcat(a[1..], b);
    }
  }

  /** Each value is shorter than the encoding of the list it is in. */
  lemma {:induction false} PartsAreShorter(ts: seq<Tlv>, k: nat)
    requires (forall j | 0 <= j < |ts| :: WellFormed(ts[j])) && k < |ts|
    ensures |ts[k].bytes| < |EncodeAll(ts)|
  {
    if k > 0 {
      PartsAreShorter(ts[1..], k - 1);
    }
  }

  /** The general names other than user principal names. */
  function PlainNames(n: Names): seq<Tlv> {
    Tagged(NAME_DNS, n.dns) + Tagged(NAME_EMAIL, n.emails) + Tagged(NAME_IP, ShortIps(n.ips)) + Tagged(NAME_URI, n.uris)
  }

  /** The written extension is one sequence whose contents, read value by value to the last byte,
      are the names in order; it can be read at all exactly when its contents are below the
      library's limit. */
  lemma MarshalledReadsBack(decode: StringDecoder, n: Names)
    requires Marshalled(decode, n).Ok?
    ensures var der, contents := Marshalled(decode, n).value, EncodeAll(GeneralNames(n));
            && (|contents| < READ_LIMIT ==>
                  Read(der) == Ok((Sequence(contents), [])) && ReadAll(contents) == Ok(GeneralNames(n)))
            && (|contents| >= READ_LIMIT ==> Read(der).Err?)
  {
    var names := GeneralNames(n);
    var contents := EncodeAll(names);
    var t := Sequence(contents);
    assert Encode(t) == Encode(t) + [];
    if |contents| < READ_LIMIT {
      ReadIff(Encode(t), t, []);
      forall k | 0 <= k < |names| ensures Readable(names[k]) {
        PartsAreShorter(names, k);
      }
      ReadAllIff(contents, names);
    } else {
      TooLongIsRefused(t, []);
    }
  }

  // ---------- the written names, number by number ----------

  /** An IPv4 address in its sixteen-byte form: ten zeros, 255, 255 and the four bytes. */
  predicate IsMapped(ip: seq<byte>) {
    |ip| == 16 && ip[..12] == [0, 0, 0, 0, 0, 0, 0, 0, 0, 0, 255, 255]
  }

  lemma ShortIpIs(ips: seq<seq<byte>>, k: nat)
    requires k < |ips|
    ensures ShortIps(ips)[k] == if IsMapped(ips[k]) then ips[k][12..16] else ips[k]
  {
    var ip := ips[k];
    if |ip| == 16 {
      var zeros: seq<byte> := [0, 0, 0, 0, 0, 0, 0, 0, 0, 0, 255, 255];
      assert ip[..12] == zeros ==> forall j | 0 <= j < 12 :: ip[j] == zeros[j] by {
        assert forall j | 0 <= j < 12 :: ip[..12][j] == ip[j];
      }
      assert To4(ip).Some? ==> ip[..12] == zeros;
      assert ip[12..] == ip[12..16];
    }
  }

  /** A constructed tag 0 with an object identifier, and a UTF-8 text in another constructed tag 0. */
  predicate IsUpn(t: Tlv, upn: Text) {
    t == Tlv(2, true, 0, Encode(Tlv(0, false, 6, [43, 6, 1, 4, 1, 130, 55, 20, 2, 3]))
                         + Encode(Tlv(2, true, 0, Encode(Tlv(0, false, 12, upn)))))
  }

  /** The values, read one after the other, are the DNS names under tag 2, the email names under 1, the
      addresses under 7, the URIs under 6, all primitive and of the context class, and then for each user
      principal name a constructed tag 0 with the object identifier and the tagged UTF-8 text. An IPv4
      address is written in four bytes. */
  predicate AreNames(ts: seq<Tlv>, n: Names) {
    && |ts| == |n.dns| + |n.emails| + |n.ips| + |n.uris| + |n.upns|
    && (forall k | 0 <= k < |n.dns| :: ts[k] == Tlv(2, false, 2, n.dns[k]))
    && (forall k | 0 <= k < |n.emails| :: ts[|n.dns| + k] == Tlv(2, false, 1, n.emails[k]))
    && (forall k | 0 <= k < |n.ips| ::
          ts[|n.dns| + |n.emails| + k]
          == Tlv(2, false, 7, if IsMapped(n.ips[k]) then n.ips[k][12..16] else n.ips[k]))
    && (forall k | 0 <= k < |n.uris| :: ts[|n.dns| + |n.emails| + |n.ips| + k] == Tlv(2, false, 6, n.uris[k]))
    && (forall k | 0 <= k < |n.upns| :: IsUpn(ts[|n.dns| + |n.emails| + |n.ips| + |n.uris| + k], n.upns[k]))
  }

  /** Where each value of five lists stands in all of them together. */
  lemma PartsAt<T>(a: seq<T>, b: seq<T>, c: seq<T>, d: seq<T>, e: seq<T>)
    ensures var all := a + b + c + d + e;
            && |all| == |a| + |b| + |c| + |d| + |e|
            && (forall k | 0 <= k < |a| :: all[k] == a[k])
            && (forall k | 0 <= k < |b| :: all[|a| + k] == b[k])
            && (forall k | 0 <= k < |c| :: all[|a| + |b| + k] == c[k])
            && (forall k | 0 <= k < |d| :: all[|a| + |b| + |c| + k] == d[k])
            && (forall k | 0 <= k < |e| :: all[|a| + |b| + |c| + |d| + k] == e[k])
  {}

  lemma UpnTlvIs(upn: Text)
    ensures IsUpn(UpnTlv(upn), upn)
  {}

  lemma UpnsAre(upns: seq<Text>, k: nat)
    requires k < |upns|
    ensures IsUpn(UpnTlvs(upns)[k], upns[k])
  {
    UpnTlvIs(upns[k]);
  }

  lemma TaggedIs(tag: nat, values: seq<seq<byte>>, k: nat)
    requires tag < 31 && k < |values|
    ensures Tagged(tag, values)[k] == Tlv(2, false, tag, values[k])
  {}

  /** Five lists one after the other are the names if each is its part of them. */
  lemma AreNamesByParts(ts: seq<Tlv>, a: seq<Tlv>, b: seq<Tlv>, c: seq<Tlv>, d: seq<Tlv>, e: seq<Tlv>, n: Names)
    requires ts == a + b + c + d + e
    requires |a| == |n.dns| && |b| == |n.emails| && |c| == |n.ips| && |d| == |n.uris| && |e| == |n.upns|
    requires forall k | 0 <= k < |a| :: a[k] == Tlv(2, false, 2, n.dns[k])
    requires forall k | 0 <= k < |b| :: b[k] == Tlv(2, false, 1, n.emails[k])
    requires forall k | 0 <= k < |c| ::
               c[k] == Tlv(2, false, 7, if IsMapped(n.ips[k]) then n.ips[k][12..16] else n.ips[k])
    requires forall k | 0 <= k < |d| :: d[k] == Tlv(2, false, 6, n.uris[k])
    requires forall k | 0 <= k < |e| :: IsUpn(e[k], n.upns[k])
    ensures AreNames(ts, n)
  {
    PartsAt(a, b, c, d, e);
  }

  lemma GeneralNamesAre(n: Names)
    ensures AreNames(GeneralNames(n), n)
  {
    var a, b, c := Tagged(NAME_DNS, n.dns), Tagged(NAME_EMAIL, n.emails), Tagged(NAME_IP, ShortIps(n.ips));
    var d, e := Tagged(NAME_URI, n.uris), UpnTlvs(n.upns);
    forall k | 0 <= k < |c|
      ensures c[k] == Tlv(2, false, 7, if IsMapped(n.ips[k]) then n.ips[k][12..16] else n.ips[k])
    {
      TaggedIs(NAME_IP, ShortIps(n.ips), k);
      ShortIpIs(n.ips, k);
    }
    forall k | 0 <= k < |e| ensures IsUpn(e[k], n.upns[k]) {
      UpnsAre(n.upns, k);
    }
    AreNamesByParts(GeneralNames(n), a, b, c, d, e, n);
  }

  /** The value read back is exactly these names, if it is not too long to be read at all. */
  ghost predicate ReadsAs(der: seq<byte>, ts: seq<Tlv>) {
    && (forall k | 0 <= k < |ts| :: WellFormed(ts[k]))
    && der == Encode(Tlv(0, true, 16, EncodeAll(ts)))
    && (|EncodeAll(ts)| < 0x8000_0000 ==>
          Read(der) == Ok((Tlv(0, true, 16, EncodeAll(ts)), [])) && ReadAll(EncodeAll(ts)) == Ok(ts))
  }

  /** MarshalSANs fails exactly if some user principal name is no valid UTF-8, or too long. */
  lemma MarshalledIff(decode: StringDecoder, n: Names)
    ensures Marshalled(decode, n).Ok? <==>
              forall k | 0 <= k < |n.upns| :: decode(12, n.upns[k]).Some? && |UpnContents(n.upns[k])| < 0x8000_0000
  {
    assert forall k | 0 <= k < |n.upns| ::
        WritableUpn(decode, n.upns[k]) <==> decode(12, n.upns[k]).Some? && |UpnContents(n.upns[k])| < 0x8000_0000;
  }

  /** What it writes is one sequence of exactly these values. */
  lemma MarshalledNames(decode: StringDecoder, n: Names) returns (ts: seq<Tlv>)
    ensures AreNames(ts, n)
    ensures Marshalled(decode, n).Ok? ==> ReadsAs(Marshalled(decode, n).value, ts)
  {
    ts := GeneralNames(n);
    GeneralNamesAre(n);
    if Marshalled(decode, n).Ok? {
      MarshalledReadsBack(decode, n);
    }
  }

  lemma NamesAreRead(decode: StringDecoder, n: Names)
    requires DecodesUtf8(decode) && Marshalled(decode, n).Ok?
    requires |EncodeAll(GeneralNames(n))| < READ_LIMIT
    ensures ReadUpns(decode, EncodeAll(GeneralNames(n))) == Ok(NonEmptyOf(n.upns))
  {
    var plain, upns, names := PlainNames(n), UpnTlvs(n.upns), GeneralNames(n);
    assert names == plain + upns;
    forall k | 0 <= k < |plain| ensures Readable(plain[k]) && plain[k].tag != NAME_OTHER {
      assert names[k] == plain[k];
      PartsAreShorter(names, k);
    }
    EncodeAllConcat(plain, upns);
    OtherKindsGiveNothing(decode, plain, EncodeAll(upns));
    WrittenUpnsAreRead(decode, n.upns);
  }

  /** Reading user principal names out of the written extension gives exactly the nonempty ones, in
      order, whatever other names surround them. */
  lemma UpnsRoundTrip(decode: StringDecoder, n: Names, critical: bool)
    requires DecodesUtf8(decode) && Marshalled(decode, n).Ok?
    ensures var r := UpnsOf(decode, [Extension(SAN_OID, critical, Marshalled(decode, n).value)]);
            if |EncodeAll(GeneralNames(n))| < READ_LIMIT then r == Ok(NonEmptyOf(n.upns)) else r.Err?
  {
    MarshalledReadsBack(decode, n);
    var ext := [Extension(SAN_OID, critical, Marshalled(decode, n).value)];
    assert ext[1..] == [];
    if |EncodeAll(GeneralNames(n))| < READ_LIMIT {
      NamesAreRead(decode, n);
      assert NonEmptyOf(n.upns) + [] == NonEmptyOf(n.upns);
    }
  }

  // ---------- what the reader accepts, without the reader's loop ----------

  /** Each value parses, and the nonempty results are the list. */
  ghost predicate Yields(decode: StringDecoder, ts: seq<Tlv>, upns: seq<Text>) {
    if ts == [] then upns == []
    else
      match ParseUpn(decode, ts[0])
      case Ok(upn) => if upn == [] then Yields(decode, ts[1..], upns)
                      else upns != [] && upns[0] == upn && Yields(decode, ts[1..], upns[1..])
      case _ => false
  }

  /** One step of the reader, in the terms of its results. */
  lemma ReadUpnsStep(decode: StringDecoder, data: seq<byte>, upns: seq<Text>)
    requires data != [] && Read(data).Ok? && ParseUpn(decode, Read(data).value.0).Ok?
    ensures var (t, rest) := Read(data).value;
            var upn := ParseUpn(decode, t).value;
            ReadUpns(decode, data) == Ok(upns) <==>
              if upn == [] then ReadUpns(decode, rest) == Ok(upns)
              else upns != [] && upns[0] == upn && ReadUpns(decode, rest) == Ok(upns[1..])
  {
    if upns != [] {
      HeadTail(upns);
    }
    var (t, rest) := Read(data).value;
    if ReadUpns(decode, rest).Ok? {
      Cut([ParseUpn(decode, t).value], ReadUpns(decode, rest).value);
    }
  }

  lemma {:induction false} ReadUpnsIff(decode: StringDecoder, data: seq<byte>, upns: seq<Text>)
    ensures ReadUpns(decode, data) == Ok(upns) <==> ReadAll(data).Ok? && Yields(decode, ReadAll(data).value, upns)
    decreases |data|
  {
    if data != [] && Read(data).Ok? {
      var (t, rest) := Read(data).value;
      if ReadAll(rest).Ok? {
        Cut([t], ReadAll(rest).value);
      }
      if ParseUpn(decode, t).Ok? {
        ReadUpnsStep(decode, data, upns);
        ReadUpnsIff(decode, rest, upns);
        ReadUpnsIff(decode, rest, if upns != [] then upns[1..] else upns);
      }
    }
  }

  /** An extension value is accepted, with a given list of names, exactly when it is the encoding of
      one sequence of general names that yield that list. */
  lemma ReaderAcceptsIff(decode: StringDecoder, value: seq<byte>, upns: seq<Text>)
    ensures UpnsOfValue(decode, value) == Ok(upns) <==>
            exists ts: seq<Tlv> ::
              && (forall k | 0 <= k < |ts| :: Readable(ts[k]))
              && Readable(Sequence(EncodeAll(ts)))
              && value == Encode(Sequence(EncodeAll(ts)))
              && Yields(decode, ts, upns)
  {
    if UpnsOfValue(decode, value) == Ok(upns) {
      var (s, _) := Read(value).value;
      ReadIff(value, s, []);
      ReadUpnsIff(decode, s.bytes, upns);
      var ts := ReadAll(s.bytes).value;
      ReadAllIff(s.bytes, ts);
      assert s == Sequence(EncodeAll(ts));
      assert value == Encode(Sequence(EncodeAll(ts)));
    }
    forall ts: seq<Tlv> |
      && (forall k | 0 <= k < |ts| :: Readable(ts[k]))
      && Readable(Sequence(EncodeAll(ts)))
      && value == Encode(Sequence(EncodeAll(ts)))
      && Yields(decode, ts, upns)
      ensures UpnsOfValue(decode, value) == Ok(upns)
    {
      var s := Sequence(EncodeAll(ts));
      assert value == Encode(s) + [];
      ReadIff(value, s, []);
      ReadAllIff(s.bytes, ts);
      ReadUpnsIff(decode, s.bytes, upns);
    }
  }

  // ---------- one general name ----------

  /** The contents of an otherName: an object identifier, a tagged value with a primitive text in it, and
      bytes after each that are ignored. */
  ghost predicate IsOtherName(b: seq<byte>, oid: Tlv, value: Tlv, text: Tlv) {
    && Readable(oid) && Readable(value) && Readable(text)
    && Encode(oid) + Encode(value) <= b && Encode(text) <= value.bytes
    && oid.cls == 0 && !oid.compound && oid.tag == 6 && ValidOid(oid.bytes)
    && value.cls == 2 && value.compound && value.tag == 0 && text.cls == 0 && !text.compound
  }

  lemma ReadPrefix(data: seq<byte>, t: Tlv)
    ensures Read(data).Ok? && Read(data).value.0 == t <==> Readable(t) && Encode(t) <= data
    ensures Readable(t) && Encode(t) <= data ==> Read(data) == Ok((t, data[|Encode(t)|..]))
  {
    if Readable(t) && Encode(t) <= data {
      ReadIff(data, t, data[|Encode(t)|..]);
    }
    if Read(data).Ok? && Read(data).value.0 == t {
      ReadIff(data, t, Read(data).value.1);
    }
  }

  /** What one general name yields: nothing for a name of another tag; for tag 0, which must be constructed
      and of the context class, the text of an otherName, if its identifier is that of user principal
      names. */
  lemma ParseUpnIff(decode: StringDecoder, v: Tlv, name: Text)
    ensures ParseUpn(decode, v) == Ok(name) <==>
              if v.tag != 0 then name == []
              else && v.cls == 2 && v.compound
                   && exists oid, value, text ::
                        && IsOtherName(v.bytes, oid, value, text) && decode(text.tag, text.bytes).Some?
                        && name == if oid.bytes == [43, 6, 1, 4, 1, 130, 55, 20, 2, 3]
                                   then decode(text.tag, text.bytes).value else []
  {
    if v.tag == 0 && ParseUpn(decode, v) == Ok(name) {
      var (oid, rest) := Read(v.bytes).value;
      var value := Read(rest).value.0;
      var text := Read(value.bytes).value.0;
      ReadPrefix(v.bytes, oid);
      ReadPrefix(rest, value);
      ReadPrefix(value.bytes, text);
      PrefixOfRest(v.bytes, Encode(oid), Encode(value));
      assert IsOtherName(v.bytes, oid, value, text);
    }
    forall oid, value, text | IsOtherName(v.bytes, oid, value, text)
      ensures Read(v.bytes) == Ok((oid, v.bytes[|Encode(oid)|..]))
      ensures Read(v.bytes[|Encode(oid)|..]).Ok? && Read(v.bytes[|Encode(oid)|..]).value.0 == value
      ensures Read(value.bytes).Ok? && Read(value.bytes).value.0 == text
    {
      PrefixOfRest(v.bytes, Encode(oid), Encode(value));
      ReadPrefix(v.bytes, oid);
      ReadPrefix(v.bytes[|Encode(oid)|..], value);
      ReadPrefix(value.bytes, text);
    }
  }

  lemma PrefixOfRest(data: seq<byte>, a: seq<byte>, b: seq<byte>)
    ensures a + b <= data <==> a <= data && b <= data[|a|..]
  {
    if a <= data && b <= data[|a|..] {
      assert data == a + data[|a|..];
    }
    if a + b <= data {
      assert (a + b)[..|a|] == a && (a + b)[|a|..] == b;
      assert data[..|a|] == a;
      assert data[|a|..][..|b|] == b;
    }
  }
}

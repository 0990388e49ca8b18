/** pkg/endpoint/endpoint.go: applying a zone's defaults to a request and checking a request
    against a policy; and certificatePolicies.go, toZoneConfig, which fills the defaults. */
module Endpoint {
  import opened Wrappers
  import opened Regex
  import opened PolicyModel
  import opened KeyKinds

  // ---------- checks ----------

  /** Some listed expression matches. */
  predicate CheckStringByRegexp(s: string, regexes: seq<string>) {
    exists k | 0 <= k < |regexes| :: MatchString(regexes[k], s)
  }

  /** Every value matches; a missing value is checked as the empty text unless it is optional. */
  predicate IsComponentValid(ss: seq<string>, regexes: seq<string>, optional: bool) {
    (optional && ss == []) ||
    forall v | v in (if ss == [] then [""] else ss) :: CheckStringByRegexp(v, regexes)
  }

  method CheckString(s: string, regexes: seq<string>) returns (r: bool)
    ensures r == CheckStringByRegexp(s, regexes)
  {
    for i := 0 to |regexes|
      invariant forall k | 0 <= k < i :: !MatchString(regexes[k], s)
    {
      if MatchString(regexes[i], s) {
        return true;
      }
    }
    return false;
  }

  method CheckComponent(ss: seq<string>, regexes: seq<string>, optional: bool) returns (r: bool)
    ensures r == IsComponentValid(ss, regexes, optional)
  {
    if optional && |ss| == 0 {
      return true;
    }
    var values := if |ss| == 0 then [""] else ss;
    for i := 0 to |values|
      invariant forall k | 0 <= k < i :: CheckStringByRegexp(values[k], regexes)
    {
      var ok := CheckString(values[i], regexes);
      if !ok {
        assert values[i] in values;
        return false;
      }
    }
    return true;
  }

  /** checkKey: the first entry that decides the requested type settles the answer. */
  function CheckKey(kind: KeyKind, bits: int, curve: string, allowed: seq<KeyConfig>): bool {
    if allowed == [] then false
    else
      var first := allowed[0];
      if first.kind == kind then
        match kind
        case RSA => bits in first.sizes
        case ECDSA => CurveOf(curve) in first.curves
        case ED25519 => curve == "" || curve == "ED25519" || CheckKey(kind, bits, curve, allowed[1..])
      else if kind == ED25519 && first.kind == ECDSA then CurveED25519 in first.curves
      else CheckKey(kind, bits, curve, allowed[1..])
  }

  // ---------- requests and zones ----------

  datatype SignatureAlgorithm = UnknownSignatureAlgorithm | SHA256WithRSA | OtherSignatureAlgorithm(n: int)

  /** The fields of a certificate request that a zone's defaults may fill. A key type outside the
      three named ones (whose text is empty) is None. */
  datatype RequestFields = RequestFields(
    organization: seq<string>, organizationalUnit: seq<string>, country: seq<string>, province: seq<string>,
    locality: seq<string>, keyType: Option<KeyKind>, keyLength: int, keyCurve: Curve,
    signatureAlgorithm: SignatureAlgorithm)

  function Fill(field: seq<string>, def: string): seq<string> {
    if field == [] && def != "" then [def] else field
  }

  function FilledKey(z: Option<KeyConfig>, r: RequestFields): RequestFields {
    match z
    case Some(config) =>
      var r1 := if r.keyType == None then r.(keyType := Some(config.kind)) else r;
      if r1.keyType == Some(RSA) && config.sizes != [] && r1.keyLength == 0 then r1.(keyLength := config.sizes[0])
      else if r1.keyType == Some(ECDSA) && config.curves != [] && r1.keyCurve == NotSet then
        r1.(keyCurve := config.curves[0])
      else r1
    case None =>
      if r.keyType == Some(RSA) && r.keyLength == 0 then r.(keyLength := 2048) else r
  }

  function FilledSubject(z: ZoneDefaults, hash: SignatureAlgorithm, r: RequestFields): RequestFields {
    r.(
      organization := Fill(r.organization, z.organization),
      organizationalUnit := if r.organizationalUnit == [] && z.organizationalUnit.Some? then z.organizationalUnit.value
                            else r.organizationalUnit,
      country := Fill(r.country, z.country),
      province := Fill(r.province, z.province),
      locality := Fill(r.locality, z.locality),
      signatureAlgorithm := if hash != UnknownSignatureAlgorithm then hash else SHA256WithRSA)
  }

  /** What UpdateCertificateRequest makes of a request. */
  function Updated(z: ZoneDefaults, hash: SignatureAlgorithm, r: RequestFields): RequestFields {
    FilledKey(z.keyConfiguration, FilledSubject(z, hash, r))
  }

  class Request {
    var organization: seq<string>
    var organizationalUnit: seq<string>
    var country: seq<string>
    var province: seq<string>
    var locality: seq<string>
    var keyType: Option<KeyKind>
    var keyLength: int
    var keyCurve: Curve
    var signatureAlgorithm: SignatureAlgorithm

    function Fields(): RequestFields
      reads this
    {
      RequestFields(organization, organizationalUnit, country, province, locality, keyType, keyLength, keyCurve,
                    signatureAlgorithm)
    }
  }

  /** What toZoneConfig leaves in a zone: the subject defaults always, a key configuration only for
      a known key type with a length. */
  function FromTemplate(d: TemplateDefaults, z: ZoneDefaults): ZoneDefaults {
    var kind := KindOf(d.key.typ, d.key.curve);
    z.(organization := d.o, country := d.c, province := d.st, locality := d.l,
       organizationalUnit := if d.ou != "" then Some([d.ou]) else z.organizationalUnit,
       keyConfiguration := if kind.Some? && d.key.length != 0 then Some(KeyConfig(kind.value, [d.key.length], []))
                           else z.keyConfiguration)
  }

  class ZoneConfiguration {
    var organization: string
    var organizationalUnit: Option<seq<string>>
    var country: string
    var province: string
    var locality: string
    var hashAlgorithm: SignatureAlgorithm
    var keyConfiguration: Option<KeyConfig>

    function Defaults(): ZoneDefaults
      reads this
    {
      ZoneDefaults(organization, organizationalUnit, country, province, locality, keyConfiguration)
    }

    constructor ()
      ensures Defaults() == EMPTY_ZONE && hashAlgorithm == UnknownSignatureAlgorithm
    {
      organization, country, province, locality := "", "", "", "";
      organizationalUnit, keyConfiguration := None, None;
      hashAlgorithm := UnknownSignatureAlgorithm;
    }

    /** certificatePolicies.go, toZoneConfig. */
    method ReadTemplate(t: Template)
      modifies this
      ensures Defaults() == FromTemplate(t.defaults, old(Defaults()))
      ensures hashAlgorithm == old(hashAlgorithm)
    {
      var r := t.defaults;
      country := r.c;
      province := r.st;
      locality := r.l;
      organization := r.o;
      if r.ou != "" {
        organizationalUnit := Some([r.ou]);
      }
      var kind := KindOf(r.key.typ, r.key.curve);
      if kind == None {
        return;
      }
      if r.key.length == 0 {
        return;
      }
      keyConfiguration := Some(KeyConfig(kind.value, [r.key.length], []));
    }

    method UpdateCertificateRequest(request: Request)
      modifies request
      ensures request.Fields() == Updated(Defaults(), hashAlgorithm, old(request.Fields()))
    {
      UpdateSubject(request);
      UpdateKey(request);
    }

    /** The subject and signature part of UpdateCertificateRequest. */
    method UpdateSubject(request: Request)
      modifies request
      ensures request.Fields() == FilledSubject(Defaults(), hashAlgorithm, old(request.Fields()))
    {
      request.organization := Fill(request.organization, organization);
      if |request.organizationalUnit| == 0 && organizationalUnit.Some? {
        request.organizationalUnit := organizationalUnit.value;
      }
      request.country := Fill(request.country, country);
      request.province := Fill(request.province, province);
      request.locality := Fill(request.locality, locality);
      if hashAlgorithm != UnknownSignatureAlgorithm {
        request.signatureAlgorithm := hashAlgorithm;
      } else {
        request.signatureAlgorithm := SHA256WithRSA;
      }
    }

    /** The key part of UpdateCertificateRequest. */
    method UpdateKey(request: Request)
      modifies request
      ensures request.Fields() == FilledKey(keyConfiguration, old(request.Fields()))
    {
      if keyConfiguration.Some? {
        if request.keyType == None {
          request.keyType := Some(keyConfiguration.value.kind);
        }
        if request.keyType == Some(RSA) {
          if |keyConfiguration.value.sizes| != 0 && request.keyLength == 0 {
            request.keyLength := keyConfiguration.value.sizes[0];
          }
        }
        if request.keyType == Some(ECDSA) {
          if |keyConfiguration.value.curves| != 0 && request.keyCurve == NotSet {
            request.keyCurve := keyConfiguration.value.curves[0];
          }
        }
      } else {
        if request.keyType == Some(RSA) && request.keyLength == 0 {
          request.keyLength := 2048;
        }
      }
    }
  }

  const EMPTY_ZONE := ZoneDefaults("", None, "", "", "", None)

  // ---------- what filling keeps and what it fills ----------

  /** A value the request has stays; a missing one becomes the zone's, if the zone has one. */
  predicate KeptOrFilled(now: seq<string>, was: seq<string>, def: string) {
    && (was != [] ==> now == was)
    && (was == [] && def != "" ==> now == [def])
    && (was == [] && def == "" ==> now == [])
  }

  /** What UpdateCertificateRequest does to the subject of any request, for any zone. */
  lemma SubjectKeptOrFilled(z: ZoneDefaults, hash: SignatureAlgorithm, r: RequestFields)
    ensures var u := Updated(z, hash, r);
            && KeptOrFilled(u.organization, r.organization, z.organization)
            && KeptOrFilled(u.country, r.country, z.country)
            && KeptOrFilled(u.province, r.province, z.province)
            && KeptOrFilled(u.locality, r.locality, z.locality)
            && (r.organizationalUnit != [] ==> u.organizationalUnit == r.organizationalUnit)
            && (r.organizationalUnit == [] ==> u.organizationalUnit == z.organizationalUnit.GetOr([]))
  {}

  /** And to its key: a type, a length and a curve that are set stay. A missing type is the zone's. A
      missing length is filled for RSA keys only, with the zone's first size, or with 2048 if the zone holds
      no key configuration; a missing curve for ECDSA keys only, with the zone's first curve. The signature
      algorithm is the zone's, or SHA-256 with RSA, whatever the request had. */
  lemma KeyKeptOrFilled(z: ZoneDefaults, hash: SignatureAlgorithm, r: RequestFields)
    ensures var u, config := Updated(z, hash, r), z.keyConfiguration;
            && u.keyType == (if r.keyType.Some? then r.keyType
                             else if config.Some? then Some(config.value.kind) else None)
            && (r.keyLength != 0 || u.keyType != Some(RSA) ==> u.keyLength == r.keyLength)
            && (r.keyLength == 0 && u.keyType == Some(RSA) ==>
                  u.keyLength == if config == None then 2048
                                 else if config.value.sizes != [] then config.value.sizes[0] else 0)
            && (r.keyCurve != NotSet || u.keyType != Some(ECDSA) ==> u.keyCurve == r.keyCurve)
            && (r.keyCurve == NotSet && u.keyType == Some(ECDSA) ==>
                  u.keyCurve == if config.Some? && config.value.curves != [] then config.value.curves[0] else NotSet)
            && u.signatureAlgorithm == (if hash == UnknownSignatureAlgorithm then SHA256WithRSA else hash)
  {}

  /** What the zone takes from a template: the five subject defaults, where no unit leaves the units as
      they were, and a key configuration of one size and no curve if the key's type is known and its length
      not zero, which otherwise stays as it was. */
  lemma ZoneTakes(d: TemplateDefaults, z: ZoneDefaults)
    ensures var now := FromTemplate(d, z);
            && now.organization == d.o && now.locality == d.l && now.province == d.st && now.country == d.c
            && now.organizationalUnit == (if d.ou == "" then z.organizationalUnit else Some([d.ou]))
            && (KindOf(d.key.typ, d.key.curve) == None || d.key.length == 0 ==>
                  now.keyConfiguration == z.keyConfiguration)
            && (KindOf(d.key.typ, d.key.curve).Some? && d.key.length != 0 ==>
                  now.keyConfiguration
                  == Some(KeyConfig(KindOf(d.key.typ, d.key.curve).value, [d.key.length], [])))
  {}

  /** The three cases of a component check. */
  lemma ComponentCases(ss: seq<string>, regexes: seq<string>, optional: bool)
    ensures ss == [] && optional ==> IsComponentValid(ss, regexes, optional)
    ensures ss == [] && !optional ==>
              (IsComponentValid(ss, regexes, optional) <==>
                 exists k | 0 <= k < |regexes| :: MatchString(regexes[k], ""))
    ensures ss != [] ==>
              (IsComponentValid(ss, regexes, optional) <==>
                 forall j | 0 <= j < |ss| :: exists k | 0 <= k < |regexes| :: MatchString(regexes[k], ss[j]))
  {
    if ss == [] && !optional {
      assert "" in [""] && forall v :: v in [""] ==> v == "";
      assert IsComponentValid(ss, regexes, optional) <==> CheckStringByRegexp("", regexes);
    }
    if ss != [] {
      assert IsComponentValid(ss, regexes, optional) <==> forall v | v in ss :: CheckStringByRegexp(v, regexes);
      assert forall j | 0 <= j < |ss| :: ss[j] in ss;
      assert (forall v | v in ss :: CheckStringByRegexp(v, regexes)) <==>
               forall j | 0 <= j < |ss| :: CheckStringByRegexp(ss[j], regexes);
    }
  }
}

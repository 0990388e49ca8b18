/** The records exchanged by the cloud policy code: the specification a user writes, the request
    compiled from it, the issuing template the service returns, and the endpoint's policy and
    defaults read from a template. A nil pointer is None. A Go slice is a `seq` where the code
    only asks for its length, and an Option where it tells nil from empty. */
module PolicyModel {
  import opened Wrappers

  // ---------- the specification ----------

  datatype Subject = Subject(orgs: seq<string>, orgUnits: seq<string>, localities: seq<string>,
                             states: seq<string>, countries: seq<string>)

  datatype KeyPair = KeyPair(keyTypes: seq<string>, rsaKeySizes: seq<int>, ellipticCurves: seq<string>,
                             serviceGenerated: Option<bool>, reuseAllowed: Option<bool>)

  datatype SubjectAltNames = SubjectAltNames(
    dnsAllowed: Option<bool>, ipAllowed: Option<bool>, emailAllowed: Option<bool>, uriAllowed: Option<bool>,
    upnAllowed: Option<bool>, uriProtocols: seq<string>, ipConstraints: seq<string>)

  datatype Policy = Policy(
    domains: seq<string>, wildcardAllowed: Option<bool>, maxValidDays: Option<int>,
    certificateAuthority: Option<string>, subject: Option<Subject>, keyPair: Option<KeyPair>,
    subjectAltNames: Option<SubjectAltNames>)

  datatype DefaultSubject = DefaultSubject(
    org: Option<string>, orgUnits: Option<seq<string>>, locality: Option<string>, state: Option<string>,
    country: Option<string>)

  datatype DefaultKeyPair = DefaultKeyPair(
    keyType: Option<string>, rsaKeySize: Option<int>, ellipticCurve: Option<string>)

  datatype Default = Default(subject: Option<DefaultSubject>, keyPair: Option<DefaultKeyPair>)

  datatype PolicySpec = PolicySpec(users: seq<string>, policy: Option<Policy>, defaults: Option<Default>)

  // A part the specification leaves out reads as a part with nothing set.

  const NO_SUBJECT := Subject([], [], [], [], [])
  const NO_KEY_PAIR := KeyPair([], [], [], None, None)
  const NO_ALT_NAMES := SubjectAltNames(None, None, None, None, None, [], [])
  const NO_DEFAULT_SUBJECT := DefaultSubject(None, None, None, None, None)
  const NO_DEFAULT_KEY_PAIR := DefaultKeyPair(None, None, None)

  function SubjectOf(ps: PolicySpec): Subject {
    if ps.policy.Some? then ps.policy.value.subject.GetOr(NO_SUBJECT) else NO_SUBJECT
  }

  function KeyPairOf(ps: PolicySpec): KeyPair {
    if ps.policy.Some? then ps.policy.value.keyPair.GetOr(NO_KEY_PAIR) else NO_KEY_PAIR
  }

  function SanOf(ps: PolicySpec): SubjectAltNames {
    if ps.policy.Some? then ps.policy.value.subjectAltNames.GetOr(NO_ALT_NAMES) else NO_ALT_NAMES
  }

  function DomainsOf(ps: PolicySpec): seq<string> {
    if ps.policy.Some? then ps.policy.value.domains else []
  }

  function DefaultSubjectOf(ps: PolicySpec): DefaultSubject {
    if ps.defaults.Some? then ps.defaults.value.subject.GetOr(NO_DEFAULT_SUBJECT) else NO_DEFAULT_SUBJECT
  }

  function DefaultKeyPairOf(ps: PolicySpec): DefaultKeyPair {
    if ps.defaults.Some? then ps.defaults.value.keyPair.GetOr(NO_DEFAULT_KEY_PAIR) else NO_DEFAULT_KEY_PAIR
  }

  // ---------- the compiled request ----------

  datatype CADetails = CADetails(productOptionId: string, organizationId: int)

  /** `digicert` holds the organization id sent with the fixed hash algorithm and renewal setting
      when the authority is DigiCert. */
  datatype Product = Product(certificateAuthority: string, productName: string, validityPeriod: string,
                             digicert: Option<int>)

  datatype KeyTypeEntry = KeyTypeEntry(keyType: string, keyLengths: seq<int>, keyCurves: seq<string>)

  datatype Key = Key(typ: string, length: int, curve: string)

  datatype RecommendedSettings = RecommendedSettings(
    o: Option<string>, ou: Option<string>, l: Option<string>, st: Option<string>, c: Option<string>,
    key: Option<Key>)

  /** Which of the four fixed address expressions is listed; their texts play no part here. */
  datatype IpRegex = IPv4 | IPv6 | PrivateIPv4 | PrivateIPv6

  /** The lists a request and a template share. */
  datatype Rules = Rules(
    cn: Option<seq<string>>, o: Option<seq<string>>, ou: Option<seq<string>>, l: Option<seq<string>>,
    st: Option<seq<string>>, c: Option<seq<string>>, san: Option<seq<string>>, ip: Option<seq<IpRegex>>,
    email: Option<seq<string>>, uri: Option<seq<string>>, keyTypes: seq<KeyTypeEntry>, keyReuse: bool,
    csrUploadAllowed: bool, keyGeneratedByVenafiAllowed: bool)

  datatype CitRequest = CitRequest(
    name: string, certificateAuthority: string, productOptionId: string, product: Product, trackingData: bool,
    rules: Rules, recommended: Option<RecommendedSettings>)

  // ---------- the issuing template ----------

  datatype TemplateDefaults = TemplateDefaults(o: string, ou: string, l: string, st: string, c: string, key: Key)

  datatype Template = Template(id: string, name: string, validityPeriod: string, rules: Rules,
                               defaults: TemplateDefaults)

  const NO_KEY := Key("", 0, "")

  function DefaultsOf(recommended: Option<RecommendedSettings>): TemplateDefaults {
    match recommended
    case None => TemplateDefaults("", "", "", "", "", NO_KEY)
    case Some(r) => TemplateDefaults(r.o.GetOr(""), r.ou.GetOr(""), r.l.GetOr(""), r.st.GetOr(""), r.c.GetOr(""),
                                     r.key.GetOr(NO_KEY))
  }

  /** The template a service returns for a stored request when it changes nothing: an absent
      recommended value arrives as the zero value of its type. */
  function Stored(id: string, req: CitRequest): Template {
    Template(id, req.name, req.product.validityPeriod, req.rules, DefaultsOf(req.recommended))
  }

  // ---------- the endpoint's view ----------

  datatype KeyKind = RSA | ECDSA | ED25519

  datatype Curve = NotSet | P521 | P256 | P384 | CurveED25519

  datatype KeyConfig = KeyConfig(kind: KeyKind, sizes: seq<int>, curves: seq<Curve>)

  datatype EndpointPolicy = EndpointPolicy(
    cn: Option<seq<string>>, o: Option<seq<string>>, ou: Option<seq<string>>, st: Option<seq<string>>,
    l: Option<seq<string>>, c: Option<seq<string>>, dnsSan: Option<seq<string>>, emailSan: Option<seq<string>>,
    uriSan: Option<seq<string>>, allowKeyReuse: bool, allowWildcards: bool, keyConfigs: seq<KeyConfig>)

  datatype ZoneDefaults = ZoneDefaults(
    organization: string, organizationalUnit: Option<seq<string>>, country: string, province: string,
    locality: string, keyConfiguration: Option<KeyConfig>)
}

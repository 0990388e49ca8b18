/** pkg/policy/policyUtils.go: validating a cloud policy specification and compiling it into the
    request for an issuing template. */
module PolicyCompiler {
  import opened Wrappers
  import opened Text
  import opened PolicyModel
  import Decimal

  const ALLOW_ALL := ".*"
  /** Authority type, account key and product. */
  const DEFAULT_CA := "BUILTIN" + ['\\'] + ("Built-In CA" + ['\\'] + "Default Product")
  const CLOUD_RSA_KEY_SIZES: seq<int> := [1024, 2048, 3072, 4096]
  const WILDCARD_PREFIX := "[*a-z]{1}[a-z0-9.-]*\\."
  const HOST_PREFIX := "[a-z]{1}[a-z0-9.-]*\\."

  // ---------- validation ----------

  datatype Component = Org | OrgUnit | Locality | State | Country | KeyType | RsaKeySize

  datatype ValidationError =
    | UnsupportedRsaKeySize(size: int)
    | SubjectAltNamesNotAllowed
    | DefaultMismatch(component: Component)
    | UnsupportedDefaultKeyType

  /** Every value of the first list is among the second. */
  method ExistStringInArray(userValue: seq<string>, supportedValues: seq<string>) returns (r: bool)
    ensures r <==> forall v | v in userValue :: v in supportedValues
  {
    for i := 0 to |userValue|
      invariant forall v | v in userValue[..i] :: v in supportedValues
    {
      var matched := false;
      for j := 0 to |supportedValues|
        invariant matched <==> userValue[i] in supportedValues[..j]
      {
        if userValue[i] == supportedValues[j] {
          matched := true;
        }
      }
      assert supportedValues[..|supportedValues|] == supportedValues;
      if !matched {
        return false;
      }
      assert userValue[..i + 1] == userValue[..i] + [userValue[i]];
    }
    assert userValue[..|userValue|] == userValue;
    return true;
  }

  predicate AllowsDefault(policyValues: seq<string>, value: string) {
    policyValues == [ALLOW_ALL] || value in policyValues
  }

  /** The first listed size the service does not support, if any. */
  function InvalidRsaKeySize(sizes: seq<int>): (r: Option<int>)
    ensures r == None ==> forall n | n in sizes :: n in CLOUD_RSA_KEY_SIZES
    ensures r.Some? ==> exists k | 0 <= k < |sizes| ::
              && sizes[k] == r.value && r.value !in CLOUD_RSA_KEY_SIZES
              && forall j | 0 <= j < k :: sizes[j] in CLOUD_RSA_KEY_SIZES
  {
    if sizes == [] then None
    else if sizes[0] !in CLOUD_RSA_KEY_SIZES then Some(sizes[0])
    else InvalidRsaKeySize(sizes[1..])
  }

  function CheckRsaKeySizes(sizes: seq<int>): Outcome<(), ValidationError> {
    match InvalidRsaKeySize(sizes)
    case None => Ok(())
    case Some(n) => Err(UnsupportedRsaKeySize(n))
  }

  function CheckDefault(component: Component, value: Option<string>, policyValues: seq<string>)
    : Outcome<(), ValidationError>
  {
    if value.Some? && policyValues != [] && !AllowsDefault(policyValues, value.value)
    then Err(DefaultMismatch(component))
    else Ok(())
  }

  /** The organizational units are compared as whole lists; the message of a mismatch dereferences
      the default organization, so a mismatch without one panics. */
  function CheckDefaultOrgUnits(def: DefaultSubject, policyValues: seq<string>): Outcome<(), ValidationError> {
    var units := def.orgUnits.GetOr([]);
    if units == [] || policyValues == [] || policyValues == [ALLOW_ALL] || (forall v | v in units :: v in policyValues)
    then Ok(())
    else if def.org == None then Panic
    else Err(DefaultMismatch(OrgUnit))
  }

  function Then(first: Outcome<(), ValidationError>, second: Outcome<(), ValidationError>)
    : Outcome<(), ValidationError>
  {
    if first.Ok? then second else first
  }

  function CheckAltNames(san: SubjectAltNames): Outcome<(), ValidationError> {
    if san.upnAllowed == Some(true) || (san.uriAllowed == Some(true) && san.uriProtocols == [])
    then Err(SubjectAltNamesNotAllowed)
    else Ok(())
  }

  function CheckDefaultKeys(ps: PolicySpec): Outcome<(), ValidationError> {
    var kp, def := KeyPairOf(ps), DefaultKeyPairOf(ps);
    if def.keyType.Some? && kp.keyTypes != [] && def.keyType.value !in kp.keyTypes
    then Err(DefaultMismatch(KeyType))
    else if def.rsaKeySize.Some? && kp.rsaKeySizes != [] && def.rsaKeySize.value !in kp.rsaKeySizes
    then Err(DefaultMismatch(RsaKeySize))
    else Ok(())
  }

  function CheckDefaultKeySupport(def: DefaultKeyPair): Outcome<(), ValidationError> {
    if def.keyType.Some? && def.keyType.value !in {"", "RSA", "EC"} then Err(UnsupportedDefaultKeyType)
    else if def.rsaKeySize.Some? && def.rsaKeySize.value != 0 then CheckRsaKeySizes([def.rsaKeySize.value])
    else Ok(())
  }

  /** ValidateCloudPolicySpecification, check by check in source order. */
  function Validate(ps: PolicySpec): Outcome<(), ValidationError> {
    var s, d := SubjectOf(ps), DefaultSubjectOf(ps);
    Then(CheckRsaKeySizes(KeyPairOf(ps).rsaKeySizes),
    Then(CheckAltNames(SanOf(ps)),
    Then(CheckDefault(Org, d.org, s.orgs),
    Then(CheckDefaultOrgUnits(d, s.orgUnits),
    Then(CheckDefault(Locality, d.locality, s.localities),
    Then(CheckDefault(State, d.state, s.states),
    Then(CheckDefault(Country, d.country, s.countries),
    Then(CheckDefaultKeys(ps),
         CheckDefaultKeySupport(DefaultKeyPairOf(ps))))))))))
  }

  // ---------- names ----------

  function HostRegex(domain: string, wildcardAllowed: bool): string {
    (if wildcardAllowed then WILDCARD_PREFIX else HOST_PREFIX) + EscapeDots(domain)
  }

  function Listed<T, U>(values: seq<T>, f: T -> U): (r: Option<seq<U>>)
    ensures r == None <==> values == []
    ensures r.Some? ==> |r.value| == |values| && forall k | 0 <= k < |values| :: r.value[k] == f(values[k])
  {
    if values == [] then None else Some(seq(|values|, k requires 0 <= k < |values| => f(values[k])))
  }

  /** What ConvertToRegex returns. */
  function HostRegexes(values: seq<string>, wildcardAllowed: bool): Option<seq<string>> {
    Listed(values, d => HostRegex(d, wildcardAllowed))
  }

  method ConvertToRegex(values: seq<string>, wildcardAllowed: bool) returns (r: Option<seq<string>>)
    ensures r == HostRegexes(values, wildcardAllowed)
  {
    var regexVals: seq<string> := [];
    for i := 0 to |values|
      invariant |regexVals| == i
      invariant forall k | 0 <= k < i :: regexVals[k] == HostRegex(values[k], wildcardAllowed)
    {
      var current := ReplaceAll(values[i], ".", "\\.");
      if wildcardAllowed {
        current := WILDCARD_PREFIX + current;
      } else {
        current := HOST_PREFIX + current;
      }
      regexVals := regexVals + [current];
    }
    assert values != [] ==> regexVals == HostRegexes(values, wildcardAllowed).value;
    return if |regexVals| > 0 then Some(regexVals) else None;
  }

  function EmailRegex(domain: string): string {
    ".*@" + EscapeDots(domain)
  }

  method ConvertToRfc822Regex(values: seq<string>) returns (r: Option<seq<string>>)
    ensures r == Listed(values, EmailRegex)
  {
    var regexVals: seq<string> := [];
    for i := 0 to |values|
      invariant |regexVals| == i
      invariant forall k | 0 <= k < i :: regexVals[k] == EmailRegex(values[k])
    {
      var current := ReplaceAll(values[i], ".", "\\.");
      current := ".*@" + current;
      regexVals := regexVals + [current];
    }
    assert values != [] ==> regexVals == Listed(values, EmailRegex).value;
    return if |regexVals| > 0 then Some(regexVals) else None;
  }

  function UriRegex(protocols: seq<string>, domain: string): string {
    "(" + Join(protocols, "|") + ")://.*\\." + EscapeDots(domain)
  }

  function UriRegexes(protocols: seq<string>, domains: seq<string>): Option<seq<string>> {
    Listed(domains, d => UriRegex(protocols, d))
  }

  method ConvertToUriRegex(protocols: seq<string>, domains: seq<string>) returns (r: Option<seq<string>>)
    ensures r == UriRegexes(protocols, domains)
  {
    var regexVals: seq<string> := [];
    var protocolsS := Join(protocols, "|");
    protocolsS := "(" + protocolsS + ")://.*\\.";
    for i := 0 to |domains|
      invariant |regexVals| == i
      invariant forall k | 0 <= k < i :: regexVals[k] == UriRegex(protocols, domains[k])
    {
      var current := ReplaceAll(domains[i], ".", "\\.");
      current := protocolsS + current;
      regexVals := regexVals + [current];
    }
    assert domains != [] ==> regexVals == UriRegexes(protocols, domains).value;
    return if |regexVals| > 0 then Some(regexVals) else None;
  }

  function IpRegexesFor(constraints: seq<string>): seq<IpRegex> {
    if constraints == [] then []
    else
      (match constraints[0]
       case "v4" => [IPv4]
       case "v6" => [IPv6]
       case "v4private" => [PrivateIPv4]
       case "v6private" => [PrivateIPv6]
       case _ => []) + IpRegexesFor(constraints[1..])
  }

  predicate WildcardAllowed(ps: PolicySpec) {
    ps.policy.Some? && ps.policy.value.wildcardAllowed == Some(true)
  }

  function CnRules(ps: PolicySpec): Option<seq<string>> {
    if DomainsOf(ps) != [] then HostRegexes(DomainsOf(ps), WildcardAllowed(ps)) else Some([ALLOW_ALL])
  }

  function SanRules(ps: PolicySpec): Option<seq<string>> {
    if DomainsOf(ps) != [] && SanOf(ps).dnsAllowed == Some(false) then None else CnRules(ps)
  }

  function EmailRules(ps: PolicySpec): Option<seq<string>> {
    if SanOf(ps).emailAllowed != Some(true) then None
    else if DomainsOf(ps) != [] then Listed(DomainsOf(ps), EmailRegex)
    else Some([".*@.*"])
  }

  function UriRules(ps: PolicySpec): Option<seq<string>> {
    if SanOf(ps).uriProtocols == [] then None
    else UriRegexes(SanOf(ps).uriProtocols, if DomainsOf(ps) != [] then DomainsOf(ps) else [ALLOW_ALL])
  }

  function IpRules(ps: PolicySpec): Option<seq<IpRegex>> {
    if SanOf(ps).ipAllowed != Some(true) then None
    else if SanOf(ps).ipConstraints != [] then Some(IpRegexesFor(SanOf(ps).ipConstraints))
    else Some([IPv4, IPv6])
  }

  // ---------- subject, keys and defaults ----------

  /** No list allows everything, the list of just the empty text allows nothing. */
  function SubjectRules(values: seq<string>): Option<seq<string>> {
    if values == [] then Some([ALLOW_ALL]) else if values == [""] then None else Some(values)
  }

  function RsaSizes(ps: PolicySpec): seq<int> {
    if KeyPairOf(ps).rsaKeySizes != [] then KeyPairOf(ps).rsaKeySizes
    else [DefaultKeyPairOf(ps).rsaKeySize.GetOr(2048)]
  }

  function EcCurves(ps: PolicySpec): seq<string> {
    if KeyPairOf(ps).ellipticCurves != [] then KeyPairOf(ps).ellipticCurves
    else [DefaultKeyPairOf(ps).ellipticCurve.GetOr("P256")]
  }

  predicate AllowsRsa(ps: PolicySpec) {
    KeyPairOf(ps).keyTypes == [] || "RSA" in KeyPairOf(ps).keyTypes
  }

  predicate AllowsEc(ps: PolicySpec) {
    "EC" in KeyPairOf(ps).keyTypes
  }

  function KeyRules(ps: PolicySpec): seq<KeyTypeEntry> {
    (if AllowsRsa(ps) then [KeyTypeEntry("RSA", RsaSizes(ps), [])] else []) +
    (if AllowsEc(ps) then [KeyTypeEntry("EC", [], EcCurves(ps))] else [])
  }

  function RecommendedKey(def: DefaultKeyPair): Option<Key> {
    match def.keyType
    case None => None
    case Some(t) =>
      if t == "RSA" then Some(Key(t, def.rsaKeySize.GetOr(2048), ""))
      else if t == "EC" then
        Some(Key(t, 0, if def.ellipticCurve.GetOr("") != "" then def.ellipticCurve.value else "P256"))
      else Some(Key(t, 0, ""))
  }

  function Recommended(ps: PolicySpec): Outcome<Option<RecommendedSettings>, CompileError> {
    var s, key := DefaultSubjectOf(ps), RecommendedKey(DefaultKeyPairOf(ps));
    if s.orgUnits == Some([]) then Panic
    else if s == NO_DEFAULT_SUBJECT && key == None then Ok(None)
    else
      var ou := if s.orgUnits.Some? then Some(s.orgUnits.value[0]) else None;
      Ok(Some(RecommendedSettings(s.org, ou, s.locality, s.state, s.country, key)))
  }

  datatype CompileError = InvalidCertificateAuthority

  /** GetCertAuthorityInfo: type, account key and product, separated by backslashes. */
  function CertAuthorityInfo(ca: string): Outcome<(string, string, string), CompileError> {
    var data := Split(ca, '\\');
    if |data| < 3 then Err(InvalidCertificateAuthority) else Ok((data[0], data[1], data[2]))
  }

  function CertificateAuthorityOf(ps: PolicySpec): string {
    var ca := if ps.policy.Some? then ps.policy.value.certificateAuthority.GetOr("") else "";
    if ca != "" then ca else DEFAULT_CA
  }

  function ValidityDays(ps: PolicySpec): int {
    var days := if ps.policy.Some? then ps.policy.value.maxValidDays.GetOr(0) else 0;
    if days == 0 then 365 else days
  }

  /** A number of days, between P and D. */
  function ValidityPeriod(days: int): (s: string)
    ensures |s| >= 3
  {
    "P" + Decimal.Itoa(days) + "D"
  }

  function CompiledRules(ps: PolicySpec): Rules {
    var s, kp := SubjectOf(ps), KeyPairOf(ps);
    Rules(CnRules(ps), SubjectRules(s.orgs), SubjectRules(s.orgUnits), SubjectRules(s.localities),
          SubjectRules(s.states), SubjectRules(s.countries), SanRules(ps), IpRules(ps), EmailRules(ps),
          UriRules(ps), KeyRules(ps), kp.reuseAllowed.GetOr(false),
          kp.serviceGenerated != Some(true), kp.serviceGenerated != Some(false))
  }

  /** What BuildCloudCitRequest returns. */
  function Compile(ps: PolicySpec, ca: CADetails): Outcome<CitRequest, CompileError> {
    match CertAuthorityInfo(CertificateAuthorityOf(ps))
    case Err(e) => Err(e)
    case Panic => Panic
    case Ok((caType, _, productName)) =>
      match Recommended(ps)
      case Err(e) => Err(e)
      case Panic => Panic
      case Ok(recommended) =>
        var product := Product(caType, productName, ValidityPeriod(ValidityDays(ps)),
                               if caType == "DIGICERT" then Some(ca.organizationId) else None);
        Ok(CitRequest("", caType, ca.productOptionId, product, caType == "ENTRUST", CompiledRules(ps), recommended))
  }

  // ---------- the compiler as the source runs it ----------

  method SubjectRulesOf(values: seq<string>) returns (r: Option<seq<string>>)
    ensures r == SubjectRules(values)
  {
    if |values| > 0 {
      if |values| == 1 && values[0] == "" {
        r := None;
      } else {
        r := Some(values);
      }
    } else {
      r := Some([".*"]);
    }
  }

  method BuildKeyTypes(ps: PolicySpec) returns (keyTypesArr: seq<KeyTypeEntry>)
    ensures keyTypesArr == KeyRules(ps)
  {
    var kp, def := KeyPairOf(ps), DefaultKeyPairOf(ps);
    var keyType: Option<KeyTypeEntry> := None;
    var ecKeyType: Option<KeyTypeEntry> := None;
    if |kp.keyTypes| > 0 {
      for i := 0 to |kp.keyTypes|
        invariant keyType == if "RSA" in kp.keyTypes[..i] then Some(KeyTypeEntry("RSA", [], [])) else None
        invariant ecKeyType == if "EC" in kp.keyTypes[..i] then Some(KeyTypeEntry("EC", [], [])) else None
      {
        var val := kp.keyTypes[i];
        if val == "RSA" {
          keyType := Some(KeyTypeEntry(val, [], []));
        } else if val == "EC" {
          ecKeyType := Some(KeyTypeEntry(val, [], []));
        }
      }
      assert kp.keyTypes[..|kp.keyTypes|] == kp.keyTypes;
    } else {
      keyType := Some(KeyTypeEntry("RSA", [], []));
    }
    if keyType.Some? {
      var lengths := if |kp.rsaKeySizes| > 0 then kp.rsaKeySizes
                     else if def.rsaKeySize.Some? then [def.rsaKeySize.value] else [2048];
      keyType := Some(keyType.value.(keyLengths := lengths));
    }
    if ecKeyType.Some? {
      var curves := if |kp.ellipticCurves| > 0 then kp.ellipticCurves
                    else if def.ellipticCurve.Some? then [def.ellipticCurve.value] else ["P256"];
      ecKeyType := Some(ecKeyType.value.(keyCurves := curves));
    }
    keyTypesArr := [];
    if keyType.Some? {
      keyTypesArr := keyTypesArr + [keyType.value];
    }
    if ecKeyType.Some? {
      keyTypesArr := keyTypesArr + [ecKeyType.value];
    }
  }

  method BuildNameRules(ps: PolicySpec) returns (rules: Rules)
    ensures rules == Rules(CnRules(ps), None, None, None, None, None, SanRules(ps), IpRules(ps), EmailRules(ps),
                           UriRules(ps), [], false, false, false)
  {
    var san := SanOf(ps);
    rules := Rules(None, None, None, None, None, None, None, None, None, None, [], false, false, false);
    if |DomainsOf(ps)| > 0 {
      var regexValues := ConvertToRegex(DomainsOf(ps), WildcardAllowed(ps));
      rules := rules.(cn := regexValues);
      if san.dnsAllowed.Some? {
        rules := rules.(san := if san.dnsAllowed.value then regexValues else None);
      } else {
        rules := rules.(san := regexValues);
      }
      if san.emailAllowed == Some(true) {
        var rfc822 := ConvertToRfc822Regex(DomainsOf(ps));
        rules := rules.(email := rfc822);
      }
      if |san.uriProtocols| > 0 {
        var uriRegex := ConvertToUriRegex(san.uriProtocols, DomainsOf(ps));
        rules := rules.(uri := uriRegex);
      }
    } else {
      rules := rules.(cn := Some([".*"]), san := Some([".*"]));
      if san.emailAllowed == Some(true) {
        rules := rules.(email := Some([".*@.*"]));
      }
      if san.ipAllowed == Some(true) {
        rules := rules.(ip := Some([]));
      }
      if |san.uriProtocols| > 0 {
        var uriRegex := ConvertToUriRegex(san.uriProtocols, [".*"]);
        rules := rules.(uri := uriRegex);
      }
    }
    if san.ipAllowed.Some? {
      if san.ipAllowed.value {
        if |san.ipConstraints| > 0 {
          rules := rules.(ip := Some(IpRegexesFor(san.ipConstraints)));
        } else {
          rules := rules.(ip := Some([IPv4, IPv6]));
        }
      } else {
        rules := rules.(ip := None);
      }
    }
  }

  method BuildRules(ps: PolicySpec) returns (rules: Rules)
    ensures rules == CompiledRules(ps)
  {
    rules := BuildNameRules(ps);
    var s, kp := SubjectOf(ps), KeyPairOf(ps);
    var o := SubjectRulesOf(s.orgs);
    var ou := SubjectRulesOf(s.orgUnits);
    var l := SubjectRulesOf(s.localities);
    var st := SubjectRulesOf(s.states);
    var c := SubjectRulesOf(s.countries);
    rules := rules.(o := o, ou := ou, l := l, st := st, c := c);
    var keyTypes := BuildKeyTypes(ps);
    rules := rules.(keyTypes := keyTypes);
    if kp.reuseAllowed.Some? {
      rules := rules.(keyReuse := kp.reuseAllowed.value);
    } else {
      rules := rules.(keyReuse := false);
    }
    if kp.serviceGenerated.Some? {
      var generated := kp.serviceGenerated.value;
      rules := rules.(csrUploadAllowed := !generated, keyGeneratedByVenafiAllowed := generated);
    } else {
      rules := rules.(csrUploadAllowed := true, keyGeneratedByVenafiAllowed := true);
    }
  }

  method BuildRecommended(ps: PolicySpec) returns (r: Outcome<Option<RecommendedSettings>, CompileError>)
    ensures r == Recommended(ps)
  {
    var s, kp := DefaultSubjectOf(ps), DefaultKeyPairOf(ps);
    var settings := RecommendedSettings(None, None, None, None, None, None);
    var shouldCreateSubject, shouldCreateKey := false, false;
    if s.org.Some? {
      settings, shouldCreateSubject := settings.(o := s.org), true;
    }
    if s.orgUnits.Some? {
      if |s.orgUnits.value| == 0 {
        return Panic;
      }
      settings, shouldCreateSubject := settings.(ou := Some(s.orgUnits.value[0])), true;
    }
    if s.locality.Some? {
      settings, shouldCreateSubject := settings.(l := s.locality), true;
    }
    if s.state.Some? {
      settings, shouldCreateSubject := settings.(st := s.state), true;
    }
    if s.country.Some? {
      settings, shouldCreateSubject := settings.(c := s.country), true;
    }
    var key := Key("", 0, "");
    if kp.keyType.Some? {
      key := key.(typ := kp.keyType.value);
      if key.typ == "RSA" {
        key := key.(length := if kp.rsaKeySize.Some? then kp.rsaKeySize.value else 2048);
      } else if key.typ == "EC" {
        if kp.ellipticCurve.Some? && kp.ellipticCurve.value != "" {
          key := key.(curve := kp.ellipticCurve.value);
        } else {
          key := key.(curve := "P256");
        }
      }
      shouldCreateKey := true;
    }
    if shouldCreateKey {
      settings := settings.(key := Some(key));
    }
    return Ok(if shouldCreateKey || shouldCreateSubject then Some(settings) else None);
  }

  method BuildCloudCitRequest(ps: PolicySpec, ca: CADetails) returns (r: Outcome<CitRequest, CompileError>)
    ensures r == Compile(ps, ca)
  {
    var certAuth: Outcome<(string, string, string), CompileError>;
    if ps.policy.Some? && ps.policy.value.certificateAuthority.Some?
       && ps.policy.value.certificateAuthority.value != "" {
      certAuth := CertAuthorityInfo(ps.policy.value.certificateAuthority.value);
    } else {
      certAuth := CertAuthorityInfo(DEFAULT_CA);
    }
    if !certAuth.Ok? {
      return match certAuth case Err(e) => Err(e) case _ => Panic;
    }
    var (caType, _, productName) := certAuth.value;
    var period := 365;
    if ps.policy.Some? && ps.policy.value.maxValidDays.Some? {
      period := ps.policy.value.maxValidDays.value;
      if period == 0 {
        period := 365;
      }
    }
    var product := Product(caType, productName, ValidityPeriod(period), None);
    if caType == "DIGICERT" {
      product := product.(digicert := Some(ca.organizationId));
    }
    var rules := BuildRules(ps);
    var recommended := BuildRecommended(ps);
    if !recommended.Ok? {
      return match recommended case Err(e) => Err(e) case _ => Panic;
    }
    return Ok(CitRequest("", caType, ca.productOptionId, product, caType == "ENTRUST", rules, recommended.value));
  }
}

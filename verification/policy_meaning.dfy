/** What validation accepts, what a compiled request says and what is read out of a template, field by
    field in the terms of the records alone. */
module PolicyMeaning {
  import opened Wrappers
  import opened Seqs
  import opened Text
  import opened PolicyModel
  import opened PolicyCompiler
  import opened PolicyReader
  import opened KeyKinds
  import Decimal

  // ---------- validation ----------

  predicate SupportedSize(n: int) {
    n == 1024 || n == 2048 || n == 3072 || n == 4096
  }

  /** A default is accepted if there is none, nothing or everything is listed, or it is listed itself. */
  predicate DefaultIsListed(def: Option<string>, list: seq<string>) {
    def == None || list == [] || list == [".*"] || exists k | 0 <= k < |list| :: list[k] == def.value
  }

  predicate UnitsAreListed(units: seq<string>, list: seq<string>) {
    list == [] || list == [".*"] || forall j | 0 <= j < |units| :: exists k | 0 <= k < |list| :: list[k] == units[j]
  }

  predicate KeyDefaultIsListed(kp: KeyPair, def: DefaultKeyPair) {
    && (def.keyType == None || kp.keyTypes == []
        || exists k | 0 <= k < |kp.keyTypes| :: kp.keyTypes[k] == def.keyType.value)
    && (def.rsaKeySize == None || kp.rsaKeySizes == []
        || exists k | 0 <= k < |kp.rsaKeySizes| :: kp.rsaKeySizes[k] == def.rsaKeySize.value)
    && (def.keyType == None || def.keyType.value == "" || def.keyType.value == "RSA" || def.keyType.value == "EC")
    && (def.rsaKeySize == None || def.rsaKeySize.value == 0 || SupportedSize(def.rsaKeySize.value))
  }

  lemma AllowsDefaultIff(list: seq<string>, v: string)
    ensures AllowsDefault(list, v) <==> list == [".*"] || exists k | 0 <= k < |list| :: list[k] == v
  {}

  lemma CheckedDefault(component: Component, def: Option<string>, list: seq<string>)
    ensures CheckDefault(component, def, list)
         == if DefaultIsListed(def, list) then Ok(()) else Err(DefaultMismatch(component))
  {
    if def.Some? {
      AllowsDefaultIff(list, def.value);
    }
  }

  lemma CheckedSizes(sizes: seq<int>)
    ensures CheckRsaKeySizes(sizes).Ok? <==> forall k | 0 <= k < |sizes| :: SupportedSize(sizes[k])
  {
    assert forall n :: n in CLOUD_RSA_KEY_SIZES <==> SupportedSize(n);
  }

  lemma CheckedUnits(def: DefaultSubject, list: seq<string>)
    ensures CheckDefaultOrgUnits(def, list).Ok? <==> UnitsAreListed(def.orgUnits.GetOr([]), list)
  {
    AllAreListed(def.orgUnits.GetOr([]), list);
  }

  lemma AllAreListed(units: seq<string>, list: seq<string>)
    ensures (forall v | v in units :: v in list) <==>
              forall j | 0 <= j < |units| :: exists k | 0 <= k < |list| :: list[k] == units[j]
  {
    if forall j | 0 <= j < |units| :: exists k | 0 <= k < |list| :: list[k] == units[j] {
      forall v | v in units ensures v in list {
        var j :| 0 <= j < |units| && units[j] == v;
        var k :| 0 <= k < |list| && list[k] == units[j];
      }
    }
    if forall v | v in units :: v in list {
      forall j | 0 <= j < |units| ensures exists k | 0 <= k < |list| :: list[k] == units[j] {
        assert units[j] in units;
        var k :| 0 <= k < |list| && list[k] == units[j];
      }
    }
  }

  lemma CheckedKeys(ps: PolicySpec)
    ensures CheckDefaultKeys(ps).Ok? && CheckDefaultKeySupport(DefaultKeyPairOf(ps)).Ok? <==>
              KeyDefaultIsListed(KeyPairOf(ps), DefaultKeyPairOf(ps))
  {
    var def := DefaultKeyPairOf(ps);
    if def.rsaKeySize.Some? {
      CheckedSizes([def.rsaKeySize.value]);
    }
  }

  /** What validation accepts, in full. */
  lemma ValidateIff(ps: PolicySpec)
    ensures var s, d, sizes := SubjectOf(ps), DefaultSubjectOf(ps), KeyPairOf(ps).rsaKeySizes;
            Validate(ps) == Ok(()) <==>
              && (forall k | 0 <= k < |sizes| :: SupportedSize(sizes[k]))
              && SanOf(ps).upnAllowed != Some(true)
              && (SanOf(ps).uriAllowed == Some(true) ==> SanOf(ps).uriProtocols != [])
              && DefaultIsListed(d.org, s.orgs) && UnitsAreListed(d.orgUnits.GetOr([]), s.orgUnits)
              && DefaultIsListed(d.locality, s.localities) && DefaultIsListed(d.state, s.states)
              && DefaultIsListed(d.country, s.countries)
              && KeyDefaultIsListed(KeyPairOf(ps), DefaultKeyPairOf(ps))
  {
    var s, d := SubjectOf(ps), DefaultSubjectOf(ps);
    CheckedSizes(KeyPairOf(ps).rsaKeySizes);
    CheckedDefault(Org, d.org, s.orgs);
    CheckedUnits(d, s.orgUnits);
    CheckedDefault(Locality, d.locality, s.localities);
    CheckedDefault(State, d.state, s.states);
    CheckedDefault(Country, d.country, s.countries);
    CheckedKeys(ps);
  }

  /** An error names what is wrong. */
  lemma ErrorsAreReal(ps: PolicySpec)
    requires Validate(ps).Err?
    ensures var s, d, kp, def := SubjectOf(ps), DefaultSubjectOf(ps), KeyPairOf(ps), DefaultKeyPairOf(ps);
            match Validate(ps).error
            case UnsupportedRsaKeySize(n) => !SupportedSize(n) && (n in kp.rsaKeySizes || def.rsaKeySize == Some(n))
            case SubjectAltNamesNotAllowed =>
              SanOf(ps).upnAllowed == Some(true) || (SanOf(ps).uriAllowed == Some(true) && SanOf(ps).uriProtocols == [])
            case UnsupportedDefaultKeyType => def.keyType.Some? && def.keyType.value !in {"", "RSA", "EC"}
            case DefaultMismatch(Org) => !DefaultIsListed(d.org, s.orgs)
            case DefaultMismatch(OrgUnit) => !UnitsAreListed(d.orgUnits.GetOr([]), s.orgUnits)
            case DefaultMismatch(Locality) => !DefaultIsListed(d.locality, s.localities)
            case DefaultMismatch(State) => !DefaultIsListed(d.state, s.states)
            case DefaultMismatch(Country) => !DefaultIsListed(d.country, s.countries)
            case DefaultMismatch(KeyType) => def.keyType.Some? && def.keyType.value !in kp.keyTypes
            case DefaultMismatch(RsaKeySize) => def.rsaKeySize.Some? && def.rsaKeySize.value !in kp.rsaKeySizes
  {
    var s, d := SubjectOf(ps), DefaultSubjectOf(ps);
    CheckedDefault(Org, d.org, s.orgs);
    CheckedUnits(d, s.orgUnits);
    CheckedDefault(Locality, d.locality, s.localities);
    CheckedDefault(State, d.state, s.states);
    CheckedDefault(Country, d.country, s.countries);
    assert forall n :: n in CLOUD_RSA_KEY_SIZES <==> SupportedSize(n);
  }

  // ---------- the compiled request ----------

  /** The days asked for, or 365 if none are, or zero. */
  predicate IsPeriod(period: string, ps: PolicySpec) {
    var asked := if ps.policy.Some? then ps.policy.value.maxValidDays else None;
    period == "P" + Decimal.Itoa(if asked == None || asked == Some(0) then 365 else asked.value) + "D"
  }

  /** The authority named by a specification, or the built-in one. */
  function NamedAuthority(ps: PolicySpec): string {
    var named := if ps.policy.Some? then ps.policy.value.certificateAuthority.GetOr("") else "";
    if named == "" then "BUILTIN\\Built-In CA\\Default Product" else named
  }

  lemma AuthorityIs(ps: PolicySpec)
    ensures CertificateAuthorityOf(ps) == NamedAuthority(ps)
  {
    assert DEFAULT_CA == "BUILTIN\\Built-In CA\\Default Product" by {
      assert "BUILTIN" + ['\\'] + ("Built-In CA" + ['\\'] + "Default Product")
          == "BUILTIN\\Built-In CA\\Default Product";
    }
  }

  /** An authority's text is its type, its account and its product, separated by backslashes; anything
      after a fourth is ignored. */
  lemma AuthorityParts(typ: string, account: string, product: string, more: string)
    requires '\\' !in typ && '\\' !in account && '\\' !in product
    ensures CertAuthorityInfo(typ + ['\\'] + (account + ['\\'] + product)) == Ok((typ, account, product))
    ensures CertAuthorityInfo(typ + ['\\'] + (account + ['\\'] + (product + ['\\'] + more)))
         == Ok((typ, account, product))
    ensures CertAuthorityInfo(typ).Err? && CertAuthorityInfo(typ + ['\\'] + account).Err?
  {
    SplitThree(typ, account, product, '\\');
    SplitCons(typ, '\\', account + ['\\'] + (product + ['\\'] + more));
    SplitCons(account, '\\', product + ['\\'] + more);
    SplitCons(product, '\\', more);
    SplitNoSep(typ, '\\');
    SplitCons(typ, '\\', account);
    SplitNoSep(account, '\\');
  }

  /** The request for an authority of that type and product, field by field but for the name rules. */
  lemma CompiledRequest(ps: PolicySpec, ca: CADetails, typ: string, account: string, product: string)
    requires Compile(ps, ca).Ok? && CertAuthorityInfo(NamedAuthority(ps)) == Ok((typ, account, product))
    ensures var req, kp := Compile(ps, ca).value, KeyPairOf(ps);
            && req.certificateAuthority == typ && req.productOptionId == ca.productOptionId
            && req.product.certificateAuthority == typ && req.product.productName == product
            && IsPeriod(req.product.validityPeriod, ps)
            && req.product.digicert == (if typ == "DIGICERT" then Some(ca.organizationId) else None)
            && (req.trackingData <==> typ == "ENTRUST")
            && (req.rules.keyReuse <==> kp.reuseAllowed == Some(true))
            && (req.rules.csrUploadAllowed <==> kp.serviceGenerated != Some(true))
            && (req.rules.keyGeneratedByVenafiAllowed <==> kp.serviceGenerated != Some(false))
  {
    AuthorityIs(ps);
  }

  /** The recommended settings are the defaults, the first unit standing for all, and are left out where
      there are none. A default RSA key has a size, 2048 if none is set; a default elliptic key a curve, P256
      if none is set; any other type is passed on alone. */
  lemma CompiledDefaults(ps: PolicySpec, ca: CADetails)
    requires Compile(ps, ca).Ok?
    ensures var d, def, r := DefaultSubjectOf(ps), DefaultKeyPairOf(ps), Compile(ps, ca).value.recommended;
            && (r == None <==>
                  d.org == d.locality == d.state == d.country == None && d.orgUnits == None && def.keyType == None)
            && (r.Some? ==>
                  && r.value.o == d.org && r.value.l == d.locality && r.value.st == d.state && r.value.c == d.country
                  && r.value.ou == (if d.orgUnits == None then None else Some(d.orgUnits.value[0]))
                  && (r.value.key == None <==> def.keyType == None)
                  && (def.keyType == Some("RSA") ==>
                        r.value.key
                        == Some(Key("RSA", if def.rsaKeySize == None then 2048 else def.rsaKeySize.value, "")))
                  && (def.keyType == Some("EC") ==>
                        r.value.key
                        == Some(Key("EC", 0, if def.ellipticCurve.GetOr("") == "" then "P256"
                                             else def.ellipticCurve.value)))
                  && (def.keyType.Some? && def.keyType.value != "RSA" && def.keyType.value != "EC" ==>
                        r.value.key == Some(Key(def.keyType.value, 0, ""))))
  {
    assert "RSA"[0] != "EC"[0];
  }

  /** A subject list is passed on as it is, but for two: none becomes the expression that accepts anything,
      and just the empty text becomes nil. */
  predicate IsListRule(rule: Option<seq<string>>, list: seq<string>) {
    rule == if list == [] then Some([".*"]) else if list == [""] then None else Some(list)
  }

  lemma CompiledSubject(ps: PolicySpec, ca: CADetails)
    requires Compile(ps, ca).Ok?
    ensures var r, s := Compile(ps, ca).value.rules, SubjectOf(ps);
            && IsListRule(r.o, s.orgs) && IsListRule(r.ou, s.orgUnits) && IsListRule(r.l, s.localities)
            && IsListRule(r.st, s.states) && IsListRule(r.c, s.countries)
  {}

  function AddressKinds(constraint: string): seq<IpRegex> {
    if constraint == "v4" then [IPv4]
    else if constraint == "v6" then [IPv6]
    else if constraint == "v4private" then [PrivateIPv4]
    else if constraint == "v6private" then [PrivateIPv6]
    else []
  }

  lemma OneAddressKind(constraint: string)
    ensures IpRegexesFor([constraint]) == AddressKinds(constraint)
  {
    assert [constraint][1..] == [];
  }

  lemma {:induction false} AddressKindsConcat(a: seq<string>, b: seq<string>)
    ensures IpRegexesFor(a + b) == IpRegexesFor(a) + IpRegexesFor(b)
  {
    if a == [] {
      assert a + b == b;
    } else {
      assert (a + b)[1..] == a[1..] + b;
      AddressKindsConcat(a[1..], b);
      Assoc(IpRegexesFor([a[0]]), IpRegexesFor(a[1..]), IpRegexesFor(b));
      OneAddressKind(a[0]);
    }
  }

  /** Addresses have expressions only if they are allowed: those of the constraints, one after the other, or
      without constraints the two plain ones. */
  lemma CompiledAddresses(ps: PolicySpec, ca: CADetails)
    requires Compile(ps, ca).Ok?
    ensures var r, san := Compile(ps, ca).value.rules, SanOf(ps);
            r.ip == if san.ipAllowed != Some(true) then None
                    else if san.ipConstraints == [] then Some([IPv4, IPv6])
                    else Some(IpRegexesFor(san.ipConstraints))
  {}

  // ---------- what is read ----------

  predicate Any<T>(list: Option<seq<T>>) {
    list.Some? && list.value != []
  }

  /** A kind of name is allowed exactly if the template has expressions for it, and is otherwise not
      mentioned; the protocols are those collected. */
  lemma ReadNames(r: Rules)
    requires ReadAltNames(r).Ok?
    ensures var san := ReadAltNames(r).value;
            && (san.Some? <==> Any(r.san) || Any(r.email) || Any(r.uri) || Any(r.ip))
            && (san.Some? ==>
                  && san.value.dnsAllowed == (if Any(r.san) then Some(true) else None)
                  && san.value.emailAllowed == (if Any(r.email) then Some(true) else None)
                  && san.value.uriAllowed == (if Any(r.uri) then Some(true) else None)
                  && san.value.ipAllowed == (if Any(r.ip) then Some(true) else None)
                  && san.value.upnAllowed == None && san.value.ipConstraints == []
                  && Ok(san.value.uriProtocols) == ReadProtocols([], r.uri.GetOr([])))
  {}

  lemma {:induction false} ReadEntries(a: seq<KeyTypeEntry>, b: seq<KeyTypeEntry>)
    ensures KeyTypeNames(a + b) == KeyTypeNames(a) + KeyTypeNames(b)
    ensures AllLengths(a + b) == AllLengths(a) + AllLengths(b)
    ensures AllCurves(a + b) == AllCurves(a) + AllCurves(b)
  {
    if a == [] {
      Empty(b);
      Empty(KeyTypeNames(b));
      Empty(AllLengths(b));
      Empty(AllCurves(b));
    } else {
      assert (a + b)[1..] == a[1..] + b && (a + b)[0] == a[0];
      ReadEntries(a[1..], b);
      Assoc([a[0].keyType], KeyTypeNames(a[1..]), KeyTypeNames(b));
      Assoc(a[0].keyLengths, AllLengths(a[1..]), AllLengths(b));
      Assoc(a[0].keyCurves, AllCurves(a[1..]), AllCurves(b));
    }
  }

  lemma ReadEntry(e: KeyTypeEntry)
    ensures KeyTypeNames([e]) == [e.keyType] && AllLengths([e]) == e.keyLengths && AllCurves([e]) == e.keyCurves
  {
    assert [e][1..] == [];
    Empty(e.keyLengths);
    Empty(e.keyCurves);
  }

  /** The key settings: there are some if the template lists key types or tells who generates keys; who does
      is left open if both may. */
  lemma ReadKeys(r: Rules)
    ensures var kp, upload, generate := ReadKeyPair(r), r.csrUploadAllowed, r.keyGeneratedByVenafiAllowed;
            && (kp == None <==> r.keyTypes == [] && upload == generate)
            && (kp.Some? ==>
                  && kp.value.keyTypes == KeyTypeNames(r.keyTypes) && kp.value.rsaKeySizes == AllLengths(r.keyTypes)
                  && kp.value.ellipticCurves == AllCurves(r.keyTypes) && kp.value.reuseAllowed == Some(r.keyReuse)
                  && kp.value.serviceGenerated == if upload == generate then None else Some(generate))
  {}

  predicate IsRead(def: Option<string>, value: string) {
    def == if value == "" then None else Some(value)
  }

  /** The whole of what is read, from any template. The wildcard setting is on exactly if there are
      expressions and every one begins as wildcard expressions do; a subject list that is absent reads as the
      empty text; a default that is empty as none. */
  lemma ReadFields(t: Template, ca: Option<string>, removeRegex: bool)
    requires ReadSpec(t, ca, removeRegex).Ok?
    ensures var back, r, d := ReadSpec(t, ca, removeRegex).value, t.rules, t.defaults;
            && back.users == [] && back.policy.Some?
            && var p := back.policy.value;
            && p.certificateAuthority == ca && p.keyPair == ReadKeyPair(r) && Ok(p.subjectAltNames) == ReadAltNames(r)
            && Ok(p.maxValidDays) == ReadValidity(t.validityPeriod)
            && |p.domains| == |r.cn.GetOr([])|
            && (forall k | 0 <= k < |p.domains| ::
                  p.domains[k] == if removeRegex then DomainOf(r.cn.value[k]) else r.cn.value[k])
            && (p.wildcardAllowed
                == Some(r.cn.GetOr([]) != [] && forall k | 0 <= k < |r.cn.value| :: "[*a" <= r.cn.value[k]))
            && p.subject == Some(Subject(r.o.GetOr([""]), r.ou.GetOr([""]), r.l.GetOr([""]), r.st.GetOr([""]),
                                         r.c.GetOr([""])))
            && IsRead(DefaultSubjectOf(back).org, d.o) && IsRead(DefaultSubjectOf(back).locality, d.l)
            && IsRead(DefaultSubjectOf(back).state, d.st) && IsRead(DefaultSubjectOf(back).country, d.c)
            && DefaultSubjectOf(back).orgUnits == (if d.ou == "" then None else Some([d.ou]))
            && IsRead(DefaultKeyPairOf(back).keyType, d.key.typ)
            && IsRead(DefaultKeyPairOf(back).ellipticCurve, d.key.curve)
            && DefaultKeyPairOf(back).rsaKeySize == if d.key.length > 0 then Some(d.key.length) else None
  {
    ReadDomains(t, ca, removeRegex);
    ReadSettings(t, ca, removeRegex);
  }

  lemma ReadDomains(t: Template, ca: Option<string>, removeRegex: bool)
    requires ReadSpec(t, ca, removeRegex).Ok?
    ensures var cn, p := t.rules.cn, ReadSpec(t, ca, removeRegex).value.policy.value;
            && |p.domains| == |cn.GetOr([])|
            && (forall k | 0 <= k < |p.domains| ::
                  p.domains[k] == if removeRegex then DomainOf(cn.value[k]) else cn.value[k])
            && (p.wildcardAllowed == Some(cn.GetOr([]) != [] && forall k | 0 <= k < |cn.value| :: "[*a" <= cn.value[k]))
  {
    var cn := Present(t.rules.cn);
    assert forall k | 0 <= k < |cn| :: cn[k] in cn;
  }

  lemma ReadSettings(t: Template, ca: Option<string>, removeRegex: bool)
    requires ReadSpec(t, ca, removeRegex).Ok?
    ensures var back, r, d := ReadSpec(t, ca, removeRegex).value, t.rules, t.defaults;
            && back.users == [] && back.policy.Some?
            && var p := back.policy.value;
            && p.certificateAuthority == ca && p.keyPair == ReadKeyPair(r) && Ok(p.subjectAltNames) == ReadAltNames(r)
            && Ok(p.maxValidDays) == ReadValidity(t.validityPeriod)
            && p.subject == Some(Subject(r.o.GetOr([""]), r.ou.GetOr([""]), r.l.GetOr([""]), r.st.GetOr([""]),
                                         r.c.GetOr([""])))
            && IsRead(DefaultSubjectOf(back).org, d.o) && IsRead(DefaultSubjectOf(back).locality, d.l)
            && IsRead(DefaultSubjectOf(back).state, d.st) && IsRead(DefaultSubjectOf(back).country, d.c)
            && DefaultSubjectOf(back).orgUnits == (if d.ou == "" then None else Some([d.ou]))
            && IsRead(DefaultKeyPairOf(back).keyType, d.key.typ)
            && IsRead(DefaultKeyPairOf(back).ellipticCurve, d.key.curve)
            && DefaultKeyPairOf(back).rsaKeySize == if d.key.length > 0 then Some(d.key.length) else None
  {}

  /** A domain in the expressions of a service that allow anything before it loses that prefix. */
  lemma OpenPrefixRemoved(domain: string)
    ensures DomainOf(".*\\." + EscapeDots(domain)) == domain
  {
    var e := ".*\\." + EscapeDots(domain);
    assert e[0] == '.' && WILDCARD_PREFIX[0] == '[' && HOST_PREFIX[0] == '[';
    assert TrimPrefix(e, WILDCARD_PREFIX) == e && TrimPrefix(e, HOST_PREFIX) == e;
    TrimOwnPrefix(".*\\.", EscapeDots(domain));
    UnescapeEscape(domain);
  }

  /** The protocols of an expression are the parts, between bars, of what stands after its first character and
      before the first closing mark; one whose mark is missing or comes first panics. */
  lemma ProtocolsBetween(first: char, body: string, rest: string)
    requires forall j: nat | j <= |body| :: !OccursAt([first] + body + ")://" + rest, ")://", j)
    ensures ProtocolsIn([first] + body + ")://" + rest) == Some(Split(body, '|'))
  {
    var regex := [first] + body + ")://" + rest;
    var n := 1 + |body|;
    assert regex[n..n + 4] == ")://";
    IndexIs(regex, ")://", n);
    assert regex[1..n] == body;
  }

  lemma NoMark(regex: string)
    ensures (forall j: nat :: !OccursAt(regex, ")://", j)) || OccursAt(regex, ")://", 0) ==> ProtocolsIn(regex) == None
  {
    if OccursAt(regex, ")://", 0) {
      IndexIs(regex, ")://", 0);
    }
  }

  // ---------- the endpoint's policy ----------

  predicate SomeStarts(list: Option<seq<string>>, start: string) {
    list.Some? && exists k | 0 <= k < |list.value| :: start <= list.value[k]
  }

  /** What toPolicy takes over besides the expressions: reuse, one configuration for each key type with its
      lengths and curves, and wildcards if some expression for common or DNS names, once anchored, begins
      with anything. A key type that is not known panics. */
  lemma EndpointFields(t: Template)
    ensures ToPolicy(t) == Panic <==>
              exists k | 0 <= k < |t.rules.keyTypes| :: KindOf(t.rules.keyTypes[k].keyType, "") == None
    ensures ToPolicy(t) == Panic || ToPolicy(t).Ok?
    ensures ToPolicy(t).Ok? ==>
              var p, types := ToPolicy(t).value, t.rules.keyTypes;
              && p.allowKeyReuse == t.rules.keyReuse
              && (p.allowWildcards <==> SomeStarts(p.cn, "^.*") || SomeStarts(p.dnsSan, "^.*"))
              && |p.keyConfigs| == |types|
              && forall k | 0 <= k < |types| ::
                   && Some(p.keyConfigs[k].kind) == KindOf(types[k].keyType, "")
                   && p.keyConfigs[k].sizes == types[k].keyLengths
                   && |p.keyConfigs[k].curves| == |types[k].keyCurves|
                   && forall j | 0 <= j < |types[k].keyCurves| ::
                        p.keyConfigs[k].curves[j] == CurveOf(types[k].keyCurves[j])
  {}

  lemma EndsIn(s: string, c: char)
    ensures HasSuffix(s, [c]) <==> s != "" && s[|s| - 1] == c
  {
    if s != "" {
      assert s[|s| - 1..] == [s[|s| - 1]];
    }
  }

  /** An expression is anchored at either end unless it is already, and nothing else changes. */
  lemma AnchoredIs(s: string)
    ensures Anchored(s) ==
              (if s != "" && s[0] == '^' then s else "^" + s) + if s != "" && s[|s| - 1] == '$' then "" else "$"
  {
    var t := if s != "" && s[0] == '^' then s else "^" + s;
    assert "^" <= s <==> s != "" && s[0] == '^';
    EndsIn(t, '$');
    assert s != "" ==> t[|t| - 1] == s[|s| - 1];
    Empty(t);
  }

  /** And all of a list, an absent list staying absent. */
  lemma AnchoredEach(list: seq<string>, k: nat)
    requires k < |list|
    ensures |AnchoredAll(Some(list)).value| == |list| && AnchoredAll(Some(list)).value[k] == Anchored(list[k])
    ensures AnchoredAll(None) == None
  {}
}

/** From a specification to the requests an endpoint checks: what the compiled template means, and
    whether the defaults it carries pass the policy it carries. */
module PolicyEndToEnd {
  import opened Wrappers
  import opened Text
  import opened Regex
  import opened PolicyModel
  import opened KeyKinds
  import opened PolicyCompiler
  import opened PolicyReader
  import opened PolicyNames
  import opened PolicyValues
  import opened PolicyRoundTrip
  import opened Endpoint

  /** `t` is the template compiled from `ps`, and `p` the endpoint's policy for it. */
  ghost predicate EnforcedAs(id: string, ps: PolicySpec, ca: CADetails, t: Template, p: EndpointPolicy) {
    Compile(ps, ca).Ok? && t == CompiledTemplate(id, ps, ca) && ToPolicy(t) == Ok(p)
  }

  /** The request `r` after a zone with nothing set reads the compiled template's defaults. */
  function FilledFrom(id: string, ps: PolicySpec, ca: CADetails, hash: SignatureAlgorithm, r: RequestFields)
    : RequestFields
    requires Compile(ps, ca).Ok?
  {
    Updated(FromTemplate(CompiledTemplate(id, ps, ca).defaults, EMPTY_ZONE), hash, r)
  }

  // ---------- keys ----------

  function AllowedKeys(ps: PolicySpec): seq<KeyConfig> {
    (if AllowsRsa(ps) then [KeyConfig(RSA, RsaSizes(ps), [])] else []) +
    (if AllowsEc(ps) then [KeyConfig(ECDSA, [], CurvesOf(EcCurves(ps)))] else [])
  }

  lemma CompiledKeyConfigs(ps: PolicySpec)
    ensures KeyConfigs(KeyRules(ps)) == Ok(AllowedKeys(ps))
  {
    CompiledKinds();
    var entries, configs := KeyRules(ps), AllowedKeys(ps);
    assert |entries| == |configs|;
    forall k | 0 <= k < |entries|
      ensures KindOf(entries[k].keyType, "").Some? && ConfigOf(entries[k]) == configs[k]
    {
      assert CurvesOf([]) == [];
    }
    assert KeyConfigs(entries).value == configs;
  }

  lemma PolicyParts(id: string, ps: PolicySpec, ca: CADetails)
    requires Compile(ps, ca).Ok?
    ensures ToPolicy(CompiledTemplate(id, ps, ca)).Ok?
    ensures var p, s := ToPolicy(CompiledTemplate(id, ps, ca)).value, SubjectOf(ps);
            && p.cn == AnchoredAll(CnRules(ps)) && p.dnsSan == AnchoredAll(SanRules(ps))
            && p.o == AnchoredAll(SubjectRules(s.orgs)) && p.ou == AnchoredAll(SubjectRules(s.orgUnits))
            && p.l == AnchoredAll(SubjectRules(s.localities)) && p.st == AnchoredAll(SubjectRules(s.states))
            && p.c == AnchoredAll(SubjectRules(s.countries)) && p.keyConfigs == AllowedKeys(ps)
  {
    CompiledKeyConfigs(ps);
    TemplateParts(id, ps, ca);
  }

  /** The endpoint checks keys only against a nonempty list. */
  predicate KeyAccepted(p: EndpointPolicy, kind: KeyKind, bits: int, curve: string) {
    p.keyConfigs == [] || CheckKey(kind, bits, curve, p.keyConfigs)
  }

  lemma AllowedKeysMeaning(ps: PolicySpec, bits: int, curve: string)
    ensures var configs := AllowedKeys(ps);
            && (CheckKey(RSA, bits, curve, configs) <==> AllowsRsa(ps) && bits in RsaSizes(ps))
            && (CheckKey(ECDSA, bits, curve, configs) <==> AllowsEc(ps) && CurveOf(curve) in CurvesOf(EcCurves(ps)))
            && (CheckKey(ED25519, bits, curve, configs) <==> AllowsEc(ps) && CurveED25519 in CurvesOf(EcCurves(ps)))
  {
    var rsa, ec := [KeyConfig(RSA, RsaSizes(ps), [])], [KeyConfig(ECDSA, [], CurvesOf(EcCurves(ps)))];
    assert rsa[1..] == [] && ec[1..] == [] && (rsa + ec)[1..] == ec;
  }

  /** Compiling and enforcing keeps the meaning of the key settings: with a known key type named, an
      RSA key passes exactly when RSA is allowed and its size listed, an elliptic one exactly when EC
      is allowed and its curve listed; with only unknown types named, every key passes. */
  lemma CompiledKeysMeaning(id: string, ps: PolicySpec, ca: CADetails,
                            t: Template, p: EndpointPolicy, bits: int, curve: string)
    requires EnforcedAs(id, ps, ca, t, p)
    ensures AllowsRsa(ps) || AllowsEc(ps) ==>
      && (KeyAccepted(p, RSA, bits, curve) <==> AllowsRsa(ps) && bits in RsaSizes(ps))
      && (KeyAccepted(p, ECDSA, bits, curve) <==> AllowsEc(ps) && CurveOf(curve) in CurvesOf(EcCurves(ps)))
      && (KeyAccepted(p, ED25519, bits, curve) <==> AllowsEc(ps) && CurveED25519 in CurvesOf(EcCurves(ps)))
    ensures !AllowsRsa(ps) && !AllowsEc(ps) ==> forall kind :: KeyAccepted(p, kind, bits, curve)
  {
    PolicyParts(id, ps, ca);
    AllowedKeysMeaning(ps, bits, curve);
    if AllowsRsa(ps) {
      assert AllowedKeys(ps)[0] == KeyConfig(RSA, RsaSizes(ps), []);
    }
  }

  /** The same in the terms of the specification alone: with RSA allowed, a size passes exactly if it is
      listed, or, where none is, if it is the default size, or else 2048; without it, none does. */
  lemma ListedSizesPass(id: string, ps: PolicySpec, ca: CADetails, t: Template, p: EndpointPolicy, bits: int,
                        curve: string)
    requires EnforcedAs(id, ps, ca, t, p)
    ensures var types, sizes, def := KeyPairOf(ps).keyTypes, KeyPairOf(ps).rsaKeySizes, DefaultKeyPairOf(ps).rsaKeySize;
            && (types == [] || "RSA" in types ==>
                  (KeyAccepted(p, RSA, bits, curve) <==>
                     if sizes != [] then exists k :: 0 <= k < |sizes| && sizes[k] == bits
                     else bits == if def.Some? then def.value else 2048))
            && (types != [] && "RSA" !in types && "EC" in types ==> !KeyAccepted(p, RSA, bits, curve))
  {
    CompiledKeysMeaning(id, ps, ca, t, p, bits, curve);
  }

  /** With EC allowed, a curve passes exactly if some listed name means it, or, where none is listed, if the
      default name does, or else if it is P256; without it, and with RSA, none does. */
  lemma ListedCurvesPass(id: string, ps: PolicySpec, ca: CADetails, t: Template, p: EndpointPolicy, bits: int,
                         curve: string)
    requires EnforcedAs(id, ps, ca, t, p)
    ensures var types, curves := KeyPairOf(ps).keyTypes, KeyPairOf(ps).ellipticCurves;
            var def := DefaultKeyPairOf(ps).ellipticCurve;
            && ("EC" in types ==>
                  (KeyAccepted(p, ECDSA, bits, curve) <==>
                     if curves != [] then exists k :: 0 <= k < |curves| && CurveOf(curves[k]) == CurveOf(curve)
                     else CurveOf(curve) == if def.Some? then CurveOf(def.value) else P256))
            && ("EC" !in types && (types == [] || "RSA" in types) ==> !KeyAccepted(p, ECDSA, bits, curve))
  {
    CompiledKeysMeaning(id, ps, ca, t, p, bits, curve);
    CompiledCurves(ps, CurveOf(curve));
  }

  lemma CompiledCurves(ps: PolicySpec, curve: Curve)
    ensures var curves, def := KeyPairOf(ps).ellipticCurves, DefaultKeyPairOf(ps).ellipticCurve;
            curve in CurvesOf(EcCurves(ps)) <==>
              if curves != [] then exists k :: 0 <= k < |curves| && CurveOf(curves[k]) == curve
              else curve == if def.Some? then CurveOf(def.value) else P256
  {
    CurveMembers(EcCurves(ps), curve);
    DefaultCurveName();
    if KeyPairOf(ps).ellipticCurves == [] {
      assert EcCurves(ps)[0] == DefaultKeyPairOf(ps).ellipticCurve.GetOr("P256");
    }
  }

  lemma CurveMembers(names: seq<string>, curve: Curve)
    ensures curve in CurvesOf(names) <==> exists k | 0 <= k < |names| :: CurveOf(names[k]) == curve
  {
    if k :| 0 <= k < |names| && CurveOf(names[k]) == curve {
      assert CurvesOf(names)[k] == curve;
    }
  }

  lemma DefaultCurveName()
    ensures CurveOf("P256") == P256
  {
    assert ToUpper("P256") == "P256";
  }

  // ---------- names ----------

  /** A common name passes exactly if it is a host under a listed domain; without listed domains,
      exactly if it holds no line break. A DNS name passes exactly if a common name would, but none
      passes where domains are listed and DNS names forbidden. */
  lemma CompiledDomainsMeaning(id: string, ps: PolicySpec, ca: CADetails, t: Template, p: EndpointPolicy, name: string)
    requires EnforcedAs(id, ps, ca, t, p)
    ensures DomainsOf(ps) == [] ==> (CheckStringByRegexp(name, Present(p.cn)) <==> '\n' !in name)
    ensures DomainsOf(ps) != [] && (forall k | 0 <= k < |DomainsOf(ps)| :: OnlyDotsSpecial(DomainsOf(ps)[k])) ==>
              (CheckStringByRegexp(name, Present(p.cn))
               <==> exists k | 0 <= k < |DomainsOf(ps)| :: HostUnder(name, DomainsOf(ps)[k], WildcardAllowed(ps)))
    ensures CheckStringByRegexp(name, Present(p.dnsSan))
       <==> CheckStringByRegexp(name, Present(p.cn)) && !(DomainsOf(ps) != [] && SanOf(ps).dnsAllowed == Some(false))
  {
    PolicyParts(id, ps, ca);
    if DomainsOf(ps) == [] {
      OnlyRule(name, ALLOW_ALL);
      AllowAllMatches(name);
    } else if forall k | 0 <= k < |DomainsOf(ps)| :: OnlyDotsSpecial(DomainsOf(ps)[k]) {
      DomainRulesMeaning(DomainsOf(ps), WildcardAllowed(ps), name);
    }
  }

  /** Forbidding DNS names has an effect exactly if a domain is listed: then every name is refused,
      and otherwise every name without a line break passes all the same. */
  lemma ForbiddenDnsNamesIff(id: string, ps: PolicySpec, ca: CADetails, t: Template, p: EndpointPolicy)
    requires EnforcedAs(id, ps, ca, t, p) && SanOf(ps).dnsAllowed == Some(false)
    ensures (forall name: string :: !CheckStringByRegexp(name, Present(p.dnsSan))) <==> DomainsOf(ps) != []
    ensures DomainsOf(ps) == [] ==> forall name: string | '\n' !in name :: CheckStringByRegexp(name, Present(p.dnsSan))
  {
    forall name: string
      ensures CheckStringByRegexp(name, Present(p.dnsSan)) <==> DomainsOf(ps) == [] && '\n' !in name
    {
      CompiledDomainsMeaning(id, ps, ca, t, p, name);
    }
    assert DomainsOf(ps) == [] ==> CheckStringByRegexp("", Present(p.dnsSan));
  }

  // ---------- subject defaults ----------

  /** A default that stands for itself as an expression, or is allowed by the expression that
      allows everything. */
  predicate Suits(value: string, list: seq<string>) {
    if list == [] || list == [ALLOW_ALL] then '\n' !in value
    else value == ALLOW_ALL || OnlyDotsSpecial(value)
  }

  lemma AnchoredPlain(v: string)
    requires v != "" && v[0] != '^' && v[|v| - 1] != '$'
    ensures Anchored(v) == "^" + v + "$"
  {
    var t := "^" + v;
    assert t[|t| - 1..] == [v[|v| - 1]];
  }

  lemma PlainMatchesItself(v: string)
    requires v != "" && OnlyDotsSpecial(v)
    ensures MatchString(Anchored(v), v)
  {
    AnchoredPlain(v);
    AnchoredRawMatchesItself(v);
  }

  lemma AllowAllMatches(v: string)
    ensures MatchString(Anchored(ALLOW_ALL), v) <==> '\n' !in v
  {
    AnchoredPlain(ALLOW_ALL);
    assert "^" + ALLOW_ALL + "$" == "^.*$";
    AnchoredDotStar(v);
  }

  /** The rule compiled from a list accepts every nonempty default that validation allows. */
  lemma DefaultMatchesRules(list: seq<string>, v: string)
    requires v != "" && Suits(v, list)
    requires list == [] || AllowsDefault(list, v)
    ensures CheckStringByRegexp(v, Present(AnchoredAll(SubjectRules(list))))
  {
    var regexes := Present(AnchoredAll(SubjectRules(list)));
    if list == [] || list == [ALLOW_ALL] {
      AllowAllMatches(v);
      assert MatchString(regexes[0], v);
    } else {
      var k :| 0 <= k < |list| && list[k] == v;
      if v == ALLOW_ALL {
        AllowAllMatches(v);
      } else {
        PlainMatchesItself(v);
      }
      assert MatchString(regexes[k], v);
    }
  }

  /** The component has a nonempty default that stands for itself under its list. */
  predicate Usable(def: Option<string>, list: seq<string>) {
    def.Some? && def.value != "" && Suits(def.value, list)
  }

  function FirstUnit(d: DefaultSubject): Option<string> {
    if d.orgUnits.Some? && d.orgUnits.value != [] then Some(d.orgUnits.value[0]) else None
  }

  /** What acceptance by validation says about the subject defaults. */
  lemma AcceptedDefaults(ps: PolicySpec)
    requires Validate(ps) == Ok(())
    ensures var s, d := SubjectOf(ps), DefaultSubjectOf(ps);
            && (d.org.Some? && s.orgs != [] ==> AllowsDefault(s.orgs, d.org.value))
            && (FirstUnit(d).Some? && s.orgUnits != [] ==> AllowsDefault(s.orgUnits, FirstUnit(d).value))
            && (d.locality.Some? && s.localities != [] ==> AllowsDefault(s.localities, d.locality.value))
            && (d.state.Some? && s.states != [] ==> AllowsDefault(s.states, d.state.value))
            && (d.country.Some? && s.countries != [] ==> AllowsDefault(s.countries, d.country.value))
  {}

  lemma ComponentPasses(def: Option<string>, list: seq<string>)
    requires Usable(def, list) && (list == [] || AllowsDefault(list, def.value))
    ensures IsComponentValid([def.value], Present(AnchoredAll(SubjectRules(list))), false)
  {
    DefaultMatchesRules(list, def.value);
  }

  lemma FilledSubjectOf(id: string, ps: PolicySpec, ca: CADetails, hash: SignatureAlgorithm, r: RequestFields)
    requires Compile(ps, ca).Ok?
    requires r.organization == r.organizationalUnit == r.locality == r.province == r.country == []
    ensures var u, d := FilledFrom(id, ps, ca, hash, r), DefaultSubjectOf(ps);
            && u.organization == Fill([], d.org.GetOr(""))
            && u.organizationalUnit == Fill([], FirstUnit(d).GetOr(""))
            && u.locality == Fill([], d.locality.GetOr(""))
            && u.province == Fill([], d.state.GetOr(""))
            && u.country == Fill([], d.country.GetOr(""))
  {
    TemplateParts(id, ps, ca);
    RecommendedParts(ps);
    FilledBy(CompiledTemplate(id, ps, ca).defaults, hash, r);
  }

  lemma FilledBy(t: TemplateDefaults, hash: SignatureAlgorithm, r: RequestFields)
    requires r.organization == r.organizationalUnit == r.locality == r.province == r.country == []
    ensures var u := Updated(FromTemplate(t, EMPTY_ZONE), hash, r);
            && u.organization == Fill([], t.o) && u.organizationalUnit == Fill([], t.ou)
            && u.locality == Fill([], t.l) && u.province == Fill([], t.st) && u.country == Fill([], t.c)
  {}

  /** End to end: for a specification that validation accepts, a request with an empty subject,
      filled from the defaults of the compiled template, passes the policy of the same template in
      every component with a usable default. */
  lemma DefaultsPassPolicy(id: string, ps: PolicySpec, ca: CADetails,
                           t: Template, p: EndpointPolicy, hash: SignatureAlgorithm,
                           r: RequestFields)
    requires Validate(ps) == Ok(()) && EnforcedAs(id, ps, ca, t, p)
    requires r.organization == r.organizationalUnit == r.locality == r.province == r.country == []
    ensures var u, s, d := FilledFrom(id, ps, ca, hash, r), SubjectOf(ps), DefaultSubjectOf(ps);
            && (Usable(d.org, s.orgs) ==> IsComponentValid(u.organization, Present(p.o), false))
            && (Usable(FirstUnit(d), s.orgUnits) ==> IsComponentValid(u.organizationalUnit, Present(p.ou), false))
            && (Usable(d.locality, s.localities) ==> IsComponentValid(u.locality, Present(p.l), false))
            && (Usable(d.state, s.states) ==> IsComponentValid(u.province, Present(p.st), false))
            && (Usable(d.country, s.countries) ==> IsComponentValid(u.country, Present(p.c), false))
  {
    AcceptedDefaults(ps);
    PolicyParts(id, ps, ca);
    FilledSubjectOf(id, ps, ca, hash, r);
    var s, d := SubjectOf(ps), DefaultSubjectOf(ps);
    if Usable(d.org, s.orgs) {
      ComponentPasses(d.org, s.orgs);
    }
    if Usable(FirstUnit(d), s.orgUnits) {
      ComponentPasses(FirstUnit(d), s.orgUnits);
    }
    if Usable(d.locality, s.localities) {
      ComponentPasses(d.locality, s.localities);
    }
    if Usable(d.state, s.states) {
      ComponentPasses(d.state, s.states);
    }
    if Usable(d.country, s.countries) {
      ComponentPasses(d.country, s.countries);
    }
  }

  predicate LegibleList(list: seq<string>) {
    forall v | v in list :: Legible(v)
  }

  predicate IsOpen(list: seq<string>) {
    list == [] || list == [ALLOW_ALL]
  }

  /** What a subject list accepts: anything without a line break if it is empty, nothing if it lists
      just the empty text, and otherwise what some listed value stands for. */
  predicate ListAccepts(list: seq<string>, v: string)
    requires LegibleList(list)
  {
    if list == [] then '\n' !in v
    else if list == [""] then false
    else exists k | 0 <= k < |list| :: StandsFor(list[k], v)
  }

  lemma ListMeaning(list: seq<string>, v: string)
    requires LegibleList(list)
    ensures CheckStringByRegexp(v, Present(AnchoredAll(SubjectRules(list)))) <==> ListAccepts(list, v)
  {
    if list == [] {
      OnlyRule(v, ALLOW_ALL);
      AllowAllMatches(v);
    } else {
      forall k | 0 <= k < |list| ensures MatchString(Anchored(list[k]), v) <==> StandsFor(list[k], v) {
        ValueMeaning(list[k], v);
      }
    }
  }

  /** After compiling, storing and anchoring, each subject component accepts exactly what its list does. */
  lemma CompiledSubjectMeaning(id: string, ps: PolicySpec, ca: CADetails, t: Template, p: EndpointPolicy, v: string)
    requires EnforcedAs(id, ps, ca, t, p)
    ensures var s := SubjectOf(ps);
            && (LegibleList(s.orgs) ==> (CheckStringByRegexp(v, Present(p.o)) <==> ListAccepts(s.orgs, v)))
            && (LegibleList(s.orgUnits) ==> (CheckStringByRegexp(v, Present(p.ou)) <==> ListAccepts(s.orgUnits, v)))
            && (LegibleList(s.localities) ==> (CheckStringByRegexp(v, Present(p.l)) <==> ListAccepts(s.localities, v)))
            && (LegibleList(s.states) ==> (CheckStringByRegexp(v, Present(p.st)) <==> ListAccepts(s.states, v)))
            && (LegibleList(s.countries) ==> (CheckStringByRegexp(v, Present(p.c)) <==> ListAccepts(s.countries, v)))
  {
    PolicyParts(id, ps, ca);
    forall list | LegibleList(list)
      ensures CheckStringByRegexp(v, Present(AnchoredAll(SubjectRules(list)))) <==> ListAccepts(list, v)
    {
      ListMeaning(list, v);
    }
  }

  lemma OnlyRule(v: string, rule: string)
    ensures CheckStringByRegexp(v, Present(AnchoredAll(Some([rule])))) <==> MatchString(Anchored(rule), v)
    ensures IsComponentValid([v], Present(AnchoredAll(Some([rule]))), false) <==> MatchString(Anchored(rule), v)
  {
    var regexes := Present(AnchoredAll(Some([rule])));
    assert |regexes| == 1 && regexes[0] == Anchored(rule);
    assert CheckStringByRegexp(v, regexes) <==> MatchString(regexes[0], v);
    assert forall x :: x in [v] <==> x == v;
  }

  /** When a list lets a default of its own pass: an open list if the default holds no line break, any
      other if the default has no group, or stands for itself all the same by way of a `.*`, or is
      what another listed value stands for. */
  predicate KeepsDefault(list: seq<string>, v: string)
    requires LegibleList(list) && (IsOpen(list) || Legible(v))
  {
    if IsOpen(list) then '\n' !in v
    else
      || '(' !in v
      || ('*' in v && StandsFor(v, v))
      || exists k | 0 <= k < |list| && list[k] != v :: StandsFor(list[k], v)
  }

  lemma AllowedDefaultIff(list: seq<string>, v: string)
    requires v != "" && LegibleList(list) && (list == [] || AllowsDefault(list, v))
    ensures IsOpen(list) || Legible(v)
    ensures ListAccepts(list, v) <==> KeepsDefault(list, v)
  {
    OpenValue(v);
    if !IsOpen(list) {
      ListedDefaultIff(list, v);
    }
  }

  lemma ListedDefaultIff(list: seq<string>, v: string)
    requires v != "" && LegibleList(list) && !IsOpen(list) && v in list
    ensures Legible(v) && (ListAccepts(list, v) <==> KeepsDefault(list, v))
  {
    var k :| 0 <= k < |list| && list[k] == v;
    assert list != [""];
    if '(' !in v {
      StandsForItself(v);
    } else if '*' !in v {
      StandsForItselfIff(v);
    }
    assert StandsFor(v, v) ==> StandsFor(list[k], v);
    if ListAccepts(list, v) {
      var j :| 0 <= j < |list| && StandsFor(list[j], v);
      assert list[j] == v ==> StandsFor(v, v);
    }
    if j :| 0 <= j < |list| && list[j] != v && StandsFor(list[j], v) {
      assert ListAccepts(list, v);
    }
  }

  lemma ComponentPassesIff(def: Option<string>, list: seq<string>)
    requires def.GetOr("") != "" && LegibleList(list) && (list == [] || AllowsDefault(list, def.value))
    ensures IsOpen(list) || Legible(def.value)
    ensures IsComponentValid([def.value], Present(AnchoredAll(SubjectRules(list))), false)
       <==> KeepsDefault(list, def.value)
  {
    AllowedDefaultIff(list, def.value);
    ListMeaning(list, def.value);
    assert forall x :: x in [def.value] <==> x == def.value;
  }

  /** The exact condition: a nonempty default that validation accepts passes if and only if its list
      keeps it. */
  predicate PassesExactly(values: seq<string>, rules: seq<string>, def: Option<string>, list: seq<string>) {
    def.GetOr("") != "" && LegibleList(list) ==>
      && (IsOpen(list) || Legible(def.value))
      && (IsComponentValid(values, rules, false) <==> KeepsDefault(list, def.value))
  }

  lemma DefaultsPassPolicyIff(id: string, ps: PolicySpec, ca: CADetails,
                              t: Template, p: EndpointPolicy, hash: SignatureAlgorithm,
                              r: RequestFields)
    requires Validate(ps) == Ok(()) && EnforcedAs(id, ps, ca, t, p)
    requires r.organization == r.organizationalUnit == r.locality == r.province == r.country == []
    ensures var u, s, d := FilledFrom(id, ps, ca, hash, r), SubjectOf(ps), DefaultSubjectOf(ps);
            && PassesExactly(u.organization, Present(p.o), d.org, s.orgs)
            && PassesExactly(u.organizationalUnit, Present(p.ou), FirstUnit(d), s.orgUnits)
            && PassesExactly(u.locality, Present(p.l), d.locality, s.localities)
            && PassesExactly(u.province, Present(p.st), d.state, s.states)
            && PassesExactly(u.country, Present(p.c), d.country, s.countries)
  {
    AcceptedDefaults(ps);
    PolicyParts(id, ps, ca);
    FilledSubjectOf(id, ps, ca, hash, r);
    var s, d := SubjectOf(ps), DefaultSubjectOf(ps);
    DefaultPassesExactly(d.org, s.orgs);
    DefaultPassesExactly(FirstUnit(d), s.orgUnits);
    DefaultPassesExactly(d.locality, s.localities);
    DefaultPassesExactly(d.state, s.states);
    DefaultPassesExactly(d.country, s.countries);
  }

  lemma DefaultPassesExactly(def: Option<string>, list: seq<string>)
    requires def.Some? && list != [] ==> AllowsDefault(list, def.value)
    ensures PassesExactly(Fill([], def.GetOr("")), Present(AnchoredAll(SubjectRules(list))), def, list)
  {
    if def.GetOr("") != "" && LegibleList(list) {
      ComponentPassesIff(def, list);
    }
  }

  // ---------- a default that its own policy refuses ----------

  /** A value with a parenthesised word at its end is read as a group: its expression matches just
      the text without the parentheses, and so never the value itself. */
  lemma ParenthesesNeverMatchThemselves(a: string, w: string, s: string)
    requires forall k | 0 <= k < |a| :: !IsMeta(a[k])
    requires forall k | 0 <= k < |w| :: !IsMeta(w[k])
    ensures MatchString(Anchored(a + "(" + w + ")"), s) <==> s == a + w
  {
    GroupAtEnd(a, w, s);
    ValueMeaning(a + "(" + w + ")", s);
  }

  /** A specification with one organization, which is also the default. */
  function OneOrg(v: string): PolicySpec {
    PolicySpec([], Some(Policy([], None, None, None, Some(Subject([v], [], [], [], [])), None, None)),
               Some(Default(Some(DefaultSubject(Some(v), None, None, None, None)), None)))
  }

  lemma DefaultAuthorityIsValid()
    ensures CertAuthorityInfo(DEFAULT_CA) == Ok(("BUILTIN", "Built-In CA", "Default Product"))
  {
    SplitThree("BUILTIN", "Built-In CA", "Default Product", '\\');
  }

  lemma OneOrgCompiles(v: string, ca: CADetails)
    ensures Validate(OneOrg(v)) == Ok(())
    ensures Compile(OneOrg(v), ca).Ok?
  {
    DefaultAuthorityIsValid();
    var ps := OneOrg(v);
    assert SubjectOf(ps).orgs == [v];
    assert AllowsDefault([v], v);
    assert CertificateAuthorityOf(ps) == DEFAULT_CA;
    assert Recommended(ps).Ok?;
  }

  /** So validation accepts, and the compiler compiles, a specification whose default organization
      its own policy refuses, for every organization with a parenthesised group. */
  lemma AcceptedDefaultCanFail(v: string, id: string, ca: CADetails, hash: SignatureAlgorithm, r: RequestFields)
    requires Legible(v) && '(' in v && '*' !in v
    requires r.organization == r.organizationalUnit == r.locality == r.province == r.country == []
    ensures var ps := OneOrg(v);
            && Validate(ps) == Ok(())
            && Compile(ps, ca).Ok?
            && ToPolicy(CompiledTemplate(id, ps, ca)).Ok?
            && FilledFrom(id, ps, ca, hash, r).organization == [v]
            && !IsComponentValid([v], Present(ToPolicy(CompiledTemplate(id, ps, ca)).value.o), false)
  {
    OneOrgCompiles(v, ca);
    PolicyParts(id, OneOrg(v), ca);
    FilledSubjectOf(id, OneOrg(v), ca, hash, r);
    GroupedRuleRefuses(v);
  }

  lemma GroupedRuleRefuses(v: string)
    requires Legible(v) && '(' in v && '*' !in v
    ensures !IsComponentValid([v], Present(AnchoredAll(SubjectRules([v]))), false)
  {
    assert [v][0] == v && LegibleList([v]) && v != ALLOW_ALL;
    ComponentPassesIff(Some(v), [v]);
  }

  // ---------- default keys ----------

  /** A fresh request: its key type is the zero value, which names RSA, and its size is not set. */
  predicate FreshKey(r: RequestFields) {
    r.keyType == Some(RSA) && r.keyLength == 0
  }

  /** How a fresh request's key is filled: from a size the zone holds, or with 2048 if it holds no
      key configuration at all. */
  lemma FreshKeyFilled(z: ZoneDefaults, hash: SignatureAlgorithm, r: RequestFields)
    requires FreshKey(r)
    ensures var u := Updated(z, hash, r);
            && u.keyType == Some(RSA)
            && (z.keyConfiguration == None ==> u.keyLength == 2048)
            && (z.keyConfiguration.Some? && z.keyConfiguration.value.sizes != [] ==>
                  u.keyLength == z.keyConfiguration.value.sizes[0])
  {
    var s := FilledSubject(z, hash, r);
    assert s.keyType == Some(RSA) && s.keyLength == 0;
  }

  lemma AcceptedRsaDefault(ps: PolicySpec)
    requires Validate(ps) == Ok(()) && DefaultKeyPairOf(ps).keyType == Some("RSA")
    ensures AllowsRsa(ps)
    ensures var def, sizes := DefaultKeyPairOf(ps), KeyPairOf(ps).rsaKeySizes;
            def.rsaKeySize.Some? && sizes != [] ==> def.rsaKeySize.value in sizes && def.rsaKeySize.value != 0
  {}

  /** A default RSA key passes the policy it comes with exactly when its size is set and not zero,
      or is left out while 2048 is among the allowed sizes. */
  lemma DefaultRsaKeyPasses(id: string, ps: PolicySpec, ca: CADetails,
                            t: Template, p: EndpointPolicy, hash: SignatureAlgorithm,
                            r: RequestFields)
    requires Validate(ps) == Ok(()) && EnforcedAs(id, ps, ca, t, p)
    ensures var u, sizes := FilledFrom(id, ps, ca, hash, r), KeyPairOf(ps).rsaKeySizes;
            DefaultKeyPairOf(ps).keyType == Some("RSA") && FreshKey(r) ==>
            && u.keyType == Some(RSA)
            && (KeyAccepted(p, RSA, u.keyLength, CurveName(u.keyCurve)) <==>
                match DefaultKeyPairOf(ps).rsaKeySize
                case Some(n) => n != 0
                case None => sizes == [] || 2048 in sizes)
  {
    if DefaultKeyPairOf(ps).keyType == Some("RSA") && FreshKey(r) {
      var n := DefaultKeyPairOf(ps).rsaKeySize.GetOr(2048);
      var z := FromTemplate(CompiledTemplate(id, ps, ca).defaults, EMPTY_ZONE);
      AcceptedRsaDefault(ps);
      RsaDefaultRead(id, ps, ca);
      FreshKeyFilled(z, hash, r);
      var u := FilledFrom(id, ps, ca, hash, r);
      CompiledKeysMeaning(id, ps, ca, t, p, u.keyLength, CurveName(u.keyCurve));
    }
  }

  lemma RsaDefaultRead(id: string, ps: PolicySpec, ca: CADetails)
    requires Compile(ps, ca).Ok? && DefaultKeyPairOf(ps).keyType == Some("RSA")
    ensures var n := DefaultKeyPairOf(ps).rsaKeySize.GetOr(2048);
            FromTemplate(CompiledTemplate(id, ps, ca).defaults, EMPTY_ZONE).keyConfiguration
            == if n != 0 then Some(KeyConfig(RSA, [n], [])) else None
  {
    TemplateParts(id, ps, ca);
    RecommendedParts(ps);
    CompiledKinds();
    assert CompiledTemplate(id, ps, ca).defaults.key == Key("RSA", DefaultKeyPairOf(ps).rsaKeySize.GetOr(2048), "");
  }

  /** The zone keeps a key configuration for exactly one kind of default: an RSA key whose size is set and
      not zero, or left out. Any other default key is dropped. */
  lemma ZoneKeyIff(id: string, ps: PolicySpec, ca: CADetails)
    requires Compile(ps, ca).Ok?
    ensures var def := DefaultKeyPairOf(ps);
            var kept := FromTemplate(CompiledTemplate(id, ps, ca).defaults, EMPTY_ZONE).keyConfiguration;
            && (kept.Some? <==> def.keyType == Some("RSA") && def.rsaKeySize.GetOr(2048) != 0)
            && (kept.Some? ==> kept.value == KeyConfig(RSA, [def.rsaKeySize.GetOr(2048)], []))
  {
    TemplateParts(id, ps, ca);
    RecommendedParts(ps);
    CompiledKinds();
    if DefaultKeyPairOf(ps).keyType == Some("RSA") {
      RsaDefaultRead(id, ps, ca);
    }
  }

  /** A default elliptic key never reaches a request: the zone keeps no key configuration, and a
      fresh request leaves as RSA 2048, which passes exactly if the policy allows just that. */
  lemma DefaultEcKeyIsDropped(id: string, ps: PolicySpec, ca: CADetails,
                              t: Template, p: EndpointPolicy, hash: SignatureAlgorithm,
                              r: RequestFields)
    requires EnforcedAs(id, ps, ca, t, p)
    ensures var u := FilledFrom(id, ps, ca, hash, r);
            DefaultKeyPairOf(ps).keyType == Some("EC") && FreshKey(r) ==>
            && FromTemplate(CompiledTemplate(id, ps, ca).defaults, EMPTY_ZONE).keyConfiguration == None
            && u.keyType == Some(RSA) && u.keyLength == 2048
            && (AllowsRsa(ps) || AllowsEc(ps) ==>
                  (KeyAccepted(p, RSA, 2048, CurveName(u.keyCurve)) <==> AllowsRsa(ps) && 2048 in RsaSizes(ps)))
  {
    if DefaultKeyPairOf(ps).keyType == Some("EC") && FreshKey(r) {
      ZoneKeyIff(id, ps, ca);
      FreshKeyFilled(FromTemplate(CompiledTemplate(id, ps, ca).defaults, EMPTY_ZONE), hash, r);
      CompiledKeysMeaning(id, ps, ca, t, p, 2048, CurveName(FilledFrom(id, ps, ca, hash, r).keyCurve));
    }
  }
}

/** Compile, read back, compile again: which settings of a specification survive. Each law is an
    equivalence: the setting comes out the same exactly under the stated condition. */
module PolicyRoundTrip {
  import opened Wrappers
  import opened Seqs
  import opened Text
  import opened PolicyModel
  import opened PolicyCompiler
  import opened PolicyReader
  import opened PolicyNames
  import Decimal

  // ---------- reading back always succeeds ----------

  lemma {:induction false} ReadProtocolsOk(acc: seq<string>, regexes: seq<string>)
    requires forall k | 0 <= k < |regexes| :: ProtocolsIn(regexes[k]).Some?
    ensures ReadProtocols(acc, regexes).Ok?
    decreases |regexes|
  {
    if regexes != [] {
      ReadProtocolsOk(AddNew(acc, ProtocolsIn(regexes[0]).value), regexes[1..]);
    }
  }

  lemma ProtocolsReadable(ps: PolicySpec)
    ensures ReadProtocols([], Present(UriRules(ps))).Ok?
  {
    var regexes := Present(UriRules(ps));
    forall k | 0 <= k < |regexes| ensures ProtocolsIn(regexes[k]).Some? {
      ProtocolsOfUriRegex(SanOf(ps).uriProtocols, (if DomainsOf(ps) != [] then DomainsOf(ps) else [ALLOW_ALL])[k]);
    }
    ReadProtocolsOk([], regexes);
  }

  /** The template stored for a compiled specification. */
  function CompiledTemplate(id: string, ps: PolicySpec, ca: CADetails): Template
    requires Compile(ps, ca).Ok?
  {
    Stored(id, Compile(ps, ca).value)
  }

  /** No template the compiler can produce makes the reader panic. */
  lemma CompiledTemplateIsReadable(id: string, ps: PolicySpec, ca: CADetails, name: Option<string>, remove: bool)
    requires Compile(ps, ca).Ok?
    ensures ReadSpec(CompiledTemplate(id, ps, ca), name, remove).Ok?
  {
    ProtocolsReadable(ps);
  }

  /** `t` is the template compiled from `ps`, and `back` the specification read from it: there is one for
      every specification that compiles. */
  ghost predicate ReadsBackAs(id: string, ps: PolicySpec, ca: CADetails, t: Template, name: Option<string>,
                              back: PolicySpec)
  {
    Compile(ps, ca).Ok? && t == CompiledTemplate(id, ps, ca) && ReadSpec(t, name, true) == Ok(back)
  }

  lemma TemplateParts(id: string, ps: PolicySpec, ca: CADetails)
    requires Compile(ps, ca).Ok?
    ensures Recommended(ps).Ok?
    ensures CompiledTemplate(id, ps, ca).rules == CompiledRules(ps)
    ensures CompiledTemplate(id, ps, ca).validityPeriod == ValidityPeriod(ValidityDays(ps))
    ensures CompiledTemplate(id, ps, ca).defaults == DefaultsOf(Recommended(ps).value)
  {}

  lemma ReadParts(t: Template, name: Option<string>, back: PolicySpec)
    requires ReadSpec(t, name, true) == Ok(back)
    ensures var r := t.rules;
            && SubjectOf(back) == Subject(ReadSubjectList(r.o), ReadSubjectList(r.ou), ReadSubjectList(r.l),
                                          ReadSubjectList(r.st), ReadSubjectList(r.c))
            && KeyPairOf(back) == ReadKeyPair(r).GetOr(NO_KEY_PAIR)
            && ReadAltNames(r).Ok? && SanOf(back) == ReadAltNames(r).value.GetOr(NO_ALT_NAMES)
            && DomainsOf(back) == Present(Listed(Present(r.cn), DomainOf))
            && WildcardAllowed(back) == IsWildCard(Present(r.cn))
            && back.policy.Some? && Ok(back.policy.value.maxValidDays) == ReadValidity(t.validityPeriod)
            && DefaultSubjectOf(back) == ReadDefaultSubject(t.defaults).GetOr(NO_DEFAULT_SUBJECT)
            && DefaultKeyPairOf(back) == ReadDefaultKeyPair(t.defaults.key).GetOr(NO_DEFAULT_KEY_PAIR)
  {}

  // ---------- subject ----------

  /** A nonempty subject list comes back as it was set, and recompiling always gives the same rule. */
  lemma SubjectListRoundTrip(values: seq<string>)
    ensures values != [] ==> ReadSubjectList(SubjectRules(values)) == values
    ensures SubjectRules(ReadSubjectList(SubjectRules(values))) == SubjectRules(values)
  {}

  lemma SubjectRoundTrip(id: string, ps: PolicySpec, ca: CADetails, t: Template, name: Option<string>,
                         back: PolicySpec)
    requires ReadsBackAs(id, ps, ca, t, name, back)
    ensures var s, again := SubjectOf(ps), SubjectOf(back);
            && SubjectRules(again.orgs) == SubjectRules(s.orgs)
            && SubjectRules(again.orgUnits) == SubjectRules(s.orgUnits)
            && SubjectRules(again.localities) == SubjectRules(s.localities)
            && SubjectRules(again.states) == SubjectRules(s.states)
            && SubjectRules(again.countries) == SubjectRules(s.countries)
  {
    TemplateParts(id, ps, ca);
    ReadParts(t, name, back);
    var s := SubjectOf(ps);
    SubjectListRoundTrip(s.orgs);
    SubjectListRoundTrip(s.orgUnits);
    SubjectListRoundTrip(s.localities);
    SubjectListRoundTrip(s.states);
    SubjectListRoundTrip(s.countries);
  }

  // ---------- the validity period ----------

  lemma PeriodRoundTrip(days: int)
    ensures ReadValidity(ValidityPeriod(days)) == Ok(Some(Decimal.Clamp(days)))
  {
    var digits := Decimal.Itoa(days);
    var period := "P" + digits + "D";
    assert period[1..|period| - 1] == digits;
    Decimal.ParseWritten(days);
  }

  /** The number of days comes back, 365 if none was set, as the nearest number of 32 bits; so compiling
      again gives the same period exactly for numbers of 32 bits. */
  lemma ValidityRoundTrip(id: string, ps: PolicySpec, ca: CADetails, t: Template, name: Option<string>,
                          back: PolicySpec)
    requires ReadsBackAs(id, ps, ca, t, name, back)
    ensures back.policy.Some? && back.policy.value.maxValidDays == Some(Decimal.Clamp(ValidityDays(ps)))
    ensures ValidityPeriod(ValidityDays(back)) == ValidityPeriod(ValidityDays(ps))
       <==> -0x8000_0000 <= ValidityDays(ps) < 0x8000_0000
  {
    TemplateParts(id, ps, ca);
    ReadParts(t, name, back);
    PeriodRoundTrip(ValidityDays(ps));
    PeriodsApart(ValidityDays(ps), ValidityDays(back));
  }

  lemma PeriodsApart(a: int, b: int)
    ensures ValidityPeriod(a) == ValidityPeriod(b) ==> a == b
  {
    if a != b {
      Decimal.ItoaApart(a, b);
      Cut("P" + Decimal.Itoa(a), "D");
      Cut("P" + Decimal.Itoa(b), "D");
      Cut("P", Decimal.Itoa(a));
      Cut("P", Decimal.Itoa(b));
    }
  }

  // ---------- keys ----------

  lemma KeyListsOf(rsa: seq<KeyTypeEntry>, ec: seq<KeyTypeEntry>, sizes: seq<int>, curves: seq<string>)
    requires rsa == [] || rsa == [KeyTypeEntry("RSA", sizes, [])]
    requires ec == [] || ec == [KeyTypeEntry("EC", [], curves)]
    ensures AllLengths(rsa + ec) == if rsa == [] then [] else sizes
    ensures AllCurves(rsa + ec) == if ec == [] then [] else curves
    ensures KeyTypeNames(rsa + ec) == (if rsa == [] then [] else ["RSA"]) + (if ec == [] then [] else ["EC"])
  {
    var e := ec;
    assert AllLengths(ec) == [] && AllCurves(ec) == (if ec == [] then [] else curves) by {
      if ec != [] {
        assert ec[1..] == [] && curves + [] == curves;
      }
    }
    assert KeyTypeNames(ec) == (if ec == [] then [] else ["EC"]) by {
      if ec != [] {
        assert ec[1..] == [] && ["EC"] + [] == ["EC"];
      }
    }
    if rsa == [] {
      assert rsa + ec == ec;
    } else {
      assert (rsa + ec)[1..] == ec;
      assert sizes + [] == sizes;
    }
  }

  lemma ReadKeysOf(ps: PolicySpec)
    ensures var kp := ReadKeyPair(CompiledRules(ps)).GetOr(NO_KEY_PAIR);
            && kp.keyTypes == (if AllowsRsa(ps) then ["RSA"] else []) + (if AllowsEc(ps) then ["EC"] else [])
            && kp.rsaKeySizes == (if AllowsRsa(ps) then RsaSizes(ps) else [])
            && kp.ellipticCurves == (if AllowsEc(ps) then EcCurves(ps) else [])
            && kp.serviceGenerated == KeyPairOf(ps).serviceGenerated
            && (AllowsRsa(ps) || AllowsEc(ps) ==> kp.reuseAllowed == Some(KeyPairOf(ps).reuseAllowed.GetOr(false)))
  {
    var rsa := if AllowsRsa(ps) then [KeyTypeEntry("RSA", RsaSizes(ps), [])] else [];
    var ec := if AllowsEc(ps) then [KeyTypeEntry("EC", [], EcCurves(ps))] else [];
    KeyListsOf(rsa, ec, RsaSizes(ps), EcCurves(ps));
    var r := CompiledRules(ps);
    assert r.keyTypes == rsa + ec;
    assert ReadServiceGenerated(r) == KeyPairOf(ps).serviceGenerated by {
      match KeyPairOf(ps).serviceGenerated {
        case None =>
        case Some(generated) => if generated {} else {}
      }
    }
  }

  /** Key types, sizes and curves survive exactly when the specification names a key type the
      compiler knows, or none at all. */
  lemma KeysRoundTrip(id: string, ps: PolicySpec, ca: CADetails, t: Template, name: Option<string>,
                      back: PolicySpec)
    requires ReadsBackAs(id, ps, ca, t, name, back)
    ensures KeyRules(back) == KeyRules(ps) <==> AllowsRsa(ps) || AllowsEc(ps)
  {
    TemplateParts(id, ps, ca);
    ReadParts(t, name, back);
    ReadKeysOf(ps);
    KeyRulesAgain(ps, back);
  }

  lemma KeyRulesAgain(ps: PolicySpec, back: PolicySpec)
    requires var kp := KeyPairOf(back);
             && kp.keyTypes == (if AllowsRsa(ps) then ["RSA"] else []) + (if AllowsEc(ps) then ["EC"] else [])
             && kp.rsaKeySizes == (if AllowsRsa(ps) then RsaSizes(ps) else [])
             && kp.ellipticCurves == (if AllowsEc(ps) then EcCurves(ps) else [])
    ensures KeyRules(back) == KeyRules(ps) <==> AllowsRsa(ps) || AllowsEc(ps)
  {
    assert AllowsEc(back) == AllowsEc(ps);
    if AllowsRsa(ps) || AllowsEc(ps) {
      assert AllowsRsa(back) == AllowsRsa(ps);
    }
  }

  /** The service-generated setting comes back in each of its three states, so both upload flags
      survive; key reuse survives whenever some key type does. */
  lemma FlagsRoundTrip(id: string, ps: PolicySpec, ca: CADetails, t: Template, name: Option<string>,
                       back: PolicySpec)
    requires ReadsBackAs(id, ps, ca, t, name, back)
    ensures KeyPairOf(back).serviceGenerated == KeyPairOf(ps).serviceGenerated
    ensures AllowsRsa(ps) || AllowsEc(ps) ==>
              KeyPairOf(back).reuseAllowed == Some(KeyPairOf(ps).reuseAllowed.GetOr(false))
    ensures var r, again := CompiledRules(ps), CompiledRules(back);
            && again.csrUploadAllowed == r.csrUploadAllowed
            && again.keyGeneratedByVenafiAllowed == r.keyGeneratedByVenafiAllowed
            && (AllowsRsa(ps) || AllowsEc(ps) ==> again.keyReuse == r.keyReuse)
  {
    TemplateParts(id, ps, ca);
    ReadParts(t, name, back);
    ReadKeysOf(ps);
  }

  // ---------- names ----------

  lemma HostRegexesNeverAllowAll(domains: seq<string>, wildcard: bool)
    requires domains != []
    ensures HostRegexes(domains, wildcard).value != [ALLOW_ALL]
  {
    assert HostRegexes(domains, wildcard).value[0][0] == '[';
  }

  /** Common-name rules survive exactly when domains are listed; then the domains and the wildcard
      setting come back as well. */
  lemma CnRoundTrip(id: string, ps: PolicySpec, ca: CADetails, t: Template, name: Option<string>,
                    back: PolicySpec)
    requires ReadsBackAs(id, ps, ca, t, name, back)
    ensures CnRules(back) == CnRules(ps) <==> DomainsOf(ps) != []
    ensures DomainsOf(ps) != [] ==> DomainsOf(back) == DomainsOf(ps) && WildcardAllowed(back) == WildcardAllowed(ps)
    ensures DomainsOf(back) != []
  {
    TemplateParts(id, ps, ca);
    ReadParts(t, name, back);
    DomainsRoundTrip(DomainsOf(ps), WildcardAllowed(ps));
    if DomainsOf(ps) == [] {
      HostRegexesNeverAllowAll(DomainsOf(back), WildcardAllowed(back));
    }
  }

  lemma AltNamesBack(id: string, ps: PolicySpec, ca: CADetails, t: Template, name: Option<string>,
                     back: PolicySpec)
    requires ReadsBackAs(id, ps, ca, t, name, back)
    ensures ReadProtocols([], Present(UriRules(ps))).Ok?
    ensures var san := SanOf(back);
            && (san.dnsAllowed == if Present(SanRules(ps)) != [] then Some(true) else None)
            && (san.emailAllowed == if Present(EmailRules(ps)) != [] then Some(true) else None)
            && (san.ipAllowed == if Present(IpRules(ps)) != [] then Some(true) else None)
            && san.ipConstraints == []
            && san.uriProtocols == ReadProtocols([], Present(UriRules(ps))).value
  {
    ProtocolsReadable(ps);
    TemplateParts(id, ps, ca);
    ReadParts(t, name, back);
    var r := CompiledRules(ps);
    assert r.san == SanRules(ps) && r.email == EmailRules(ps) && r.ip == IpRules(ps) && r.uri == UriRules(ps);
  }

  /** DNS names: lost when they were forbidden, or when no domain was listed. */
  lemma SanRoundTrip(id: string, ps: PolicySpec, ca: CADetails, t: Template, name: Option<string>,
                     back: PolicySpec)
    requires ReadsBackAs(id, ps, ca, t, name, back)
    ensures SanRules(back) == SanRules(ps) <==> DomainsOf(ps) != [] && SanOf(ps).dnsAllowed != Some(false)
  {
    CnRoundTrip(id, ps, ca, t, name, back);
    AltNamesBack(id, ps, ca, t, name, back);
  }

  lemma EmailRegexIsNotOpen(d: string)
    ensures EmailRegex(d) != ".*@.*"
  {
    EscapedDots(d);
    assert ".*@.*"[3] == '.';
    assert |EscapeDots(d)| > 0 ==> EscapeDots(d)[0] != '.';
  }

  /** Email rules: lost only when email is allowed without a domain. */
  lemma EmailRoundTrip(id: string, ps: PolicySpec, ca: CADetails, t: Template, name: Option<string>,
                       back: PolicySpec)
    requires ReadsBackAs(id, ps, ca, t, name, back)
    ensures EmailRules(back) == EmailRules(ps) <==> DomainsOf(ps) != [] || SanOf(ps).emailAllowed != Some(true)
  {
    CnRoundTrip(id, ps, ca, t, name, back);
    AltNamesBack(id, ps, ca, t, name, back);
    if DomainsOf(ps) == [] && SanOf(ps).emailAllowed == Some(true) {
      EmailRegexIsNotOpen(DomainsOf(back)[0]);
      assert EmailRules(back).value[0] == EmailRegex(DomainsOf(back)[0]);
    }
  }

  /** Address rules: a list of constraints survives only if it compiles to the two plain ones. */
  lemma IpRoundTrip(id: string, ps: PolicySpec, ca: CADetails, t: Template, name: Option<string>,
                    back: PolicySpec)
    requires ReadsBackAs(id, ps, ca, t, name, back)
    ensures IpRules(back) == IpRules(ps)
       <==> SanOf(ps).ipAllowed != Some(true) || SanOf(ps).ipConstraints == []
            || IpRegexesFor(SanOf(ps).ipConstraints) == [IPv4, IPv6]
  {
    AltNamesBack(id, ps, ca, t, name, back);
  }

  lemma OpenDomainBack()
    ensures DomainOf(ALLOW_ALL) == ALLOW_ALL
  {
    assert ".*"[1..] == "*";
  }

  /** The domains the URI rules are compiled for. */
  function UriDomains(ps: PolicySpec): (r: seq<string>)
    ensures r != []
  {
    if DomainsOf(ps) != [] then DomainsOf(ps) else [ALLOW_ALL]
  }

  /** Domains always come back as those the URI rules are compiled for. */
  lemma UriDomainsBack(id: string, ps: PolicySpec, ca: CADetails, t: Template, name: Option<string>,
                       back: PolicySpec)
    requires ReadsBackAs(id, ps, ca, t, name, back)
    ensures DomainsOf(back) == UriDomains(ps)
  {
    CnRoundTrip(id, ps, ca, t, name, back);
    if DomainsOf(ps) == [] {
      TemplateParts(id, ps, ca);
      ReadParts(t, name, back);
      OpenDomainBack();
      var open := [ALLOW_ALL];
      assert DomainsOf(back) == Present(Listed(open, DomainOf));
      assert DomainsOf(back)[0] == DomainOf(open[0]);
    }
  }

  lemma SameUriRegexesIff(a: seq<string>, b: seq<string>, domains: seq<string>)
    requires domains != []
    ensures UriRegexes(a, domains) == UriRegexes(b, domains) <==> Join(a, "|") == Join(b, "|")
  {
    var x, y := UriRegexes(a, domains).value, UriRegexes(b, domains).value;
    var tail := ")://.*\\." + EscapeDots(domains[0]);
    assert x[0] == UriRegex(a, domains[0]) && y[0] == UriRegex(b, domains[0]);
    assert UriRegex(a, domains[0]) == "(" + Join(a, "|") + tail && UriRegex(b, domains[0]) == "(" + Join(b, "|") + tail;
    if x == y {
      SameMiddle(Join(a, "|"), Join(b, "|"), tail);
    }
    if Join(a, "|") == Join(b, "|") {
      assert forall k | 0 <= k < |domains| :: UriRegex(a, domains[k]) == UriRegex(b, domains[k]);
    }
  }

  lemma SameMiddle(a: string, b: string, tail: string)
    requires "(" + a + tail == "(" + b + tail
    ensures a == b
  {
    assert |a| == |b|;
    Cut("(" + a, tail);
    Cut("(" + b, tail);
    Cut("(", a);
    Cut("(", b);
  }

  /** URI rules survive exactly if no protocol is listed, or the protocols are readable. */
  lemma UriRoundTrip(id: string, ps: PolicySpec, ca: CADetails, t: Template, name: Option<string>,
                     back: PolicySpec)
    requires ReadsBackAs(id, ps, ca, t, name, back)
    ensures UriRules(back) == UriRules(ps) <==>
              SanOf(ps).uriProtocols == [] || ReadableProtocols(SanOf(ps).uriProtocols)
  {
    UriDomainsBack(id, ps, ca, t, name, back);
    AltNamesBack(id, ps, ca, t, name, back);
    var protocols, domains := SanOf(ps).uriProtocols, UriDomains(ps);
    if protocols != [] {
      var carried := CarriedProtocols(protocols);
      ProtocolsRoundTrip(protocols, domains);
      AddNewHolds([], carried);
      assert carried[0] in Distinct(carried);
      assert UriRules(ps) == UriRegexes(protocols, domains);
      assert UriRules(back) == UriRegexes(Distinct(carried), domains);
      SameUriRegexesIff(Distinct(carried), protocols, domains);
      RejoinedIff(protocols);
    }
  }

  /** Protocols that hold neither the separator nor the closing mark are readable exactly if none is
      repeated. */
  lemma PlainReadableIff(ps: seq<string>)
    requires ps != [] && forall k | 0 <= k < |ps| :: PlainProtocol(ps[k])
    ensures ReadableProtocols(ps) <==> NoRepeats(ps)
  {
    SplitJoin(ps, '|');
    forall j: nat ensures !OccursAt(Join(ps, "|"), ")://", j) {
      NoMarkInJoined(ps, j);
    }
  }

  // ---------- defaults ----------

  lemma SubjectDefaultsBack(d: TemplateDefaults)
    ensures var s := ReadDefaultSubject(d).GetOr(NO_DEFAULT_SUBJECT);
            && s.org.GetOr("") == d.o && s.locality.GetOr("") == d.l && s.state.GetOr("") == d.st
            && s.country.GetOr("") == d.c && s.orgUnits != Some([])
            && (if s.orgUnits.Some? then s.orgUnits.value[0] else "") == d.ou
  {}

  lemma RecommendedParts(ps: PolicySpec)
    requires Recommended(ps).Ok?
    ensures var s, d := DefaultSubjectOf(ps), DefaultsOf(Recommended(ps).value);
            && s.orgUnits != Some([])
            && d.o == s.org.GetOr("") && d.l == s.locality.GetOr("") && d.st == s.state.GetOr("")
            && d.c == s.country.GetOr("") && d.ou == (if s.orgUnits.Some? then s.orgUnits.value[0] else "")
            && d.key == RecommendedKey(DefaultKeyPairOf(ps)).GetOr(NO_KEY)
  {}

  lemma KeyDefaultBack(def: DefaultKeyPair)
    ensures var k := RecommendedKey(def).GetOr(NO_KEY);
            (RecommendedKey(ReadDefaultKeyPair(k).GetOr(NO_DEFAULT_KEY_PAIR)).GetOr(NO_KEY) == k <==>
             !(def.keyType == Some("RSA") && def.rsaKeySize.Some? && def.rsaKeySize.value <= 0))
  {}

  /** Subject defaults always survive, and the default key exactly when it is not an RSA key whose
      size is set to zero or below. */
  lemma DefaultsRoundTrip(id: string, ps: PolicySpec, ca: CADetails, t: Template, name: Option<string>,
                          back: PolicySpec)
    requires ReadsBackAs(id, ps, ca, t, name, back)
    ensures Recommended(ps).Ok? && Recommended(back).Ok?
    ensures var d, again := DefaultsOf(Recommended(ps).value), DefaultsOf(Recommended(back).value);
            var def := DefaultKeyPairOf(ps);
            && again.o == d.o && again.ou == d.ou && again.l == d.l && again.st == d.st && again.c == d.c
            && (again.key == d.key <==>
                !(def.keyType == Some("RSA") && def.rsaKeySize.Some? && def.rsaKeySize.value <= 0))
  {
    TemplateParts(id, ps, ca);
    ReadParts(t, name, back);
    RecommendedParts(ps);
    SubjectDefaultsBack(DefaultsOf(Recommended(ps).value));
    RecommendedParts(back);
    KeyDefaultBack(DefaultKeyPairOf(ps));
  }

  // ---------- all together ----------

  /** The settings a template can carry back unchanged. */
  ghost predicate Recoverable(ps: PolicySpec) {
    && DomainsOf(ps) != []
    && (AllowsRsa(ps) || AllowsEc(ps))
    && SanOf(ps).dnsAllowed != Some(false)
    && (SanOf(ps).ipAllowed == Some(true) && SanOf(ps).ipConstraints != [] ==>
          IpRegexesFor(SanOf(ps).ipConstraints) == [IPv4, IPv6])
    && (SanOf(ps).uriProtocols == [] || ReadableProtocols(SanOf(ps).uriProtocols))
  }

  /** Compile, read, compile gives the same rules exactly for the recoverable specifications. */
  lemma CompileReadCompile(id: string, ps: PolicySpec, ca: CADetails, t: Template, name: Option<string>,
                           back: PolicySpec)
    requires ReadsBackAs(id, ps, ca, t, name, back)
    ensures CompiledRules(back) == CompiledRules(ps) <==> Recoverable(ps)
  {
    SubjectRoundTrip(id, ps, ca, t, name, back);
    KeysRoundTrip(id, ps, ca, t, name, back);
    FlagsRoundTrip(id, ps, ca, t, name, back);
    CnRoundTrip(id, ps, ca, t, name, back);
    SanRoundTrip(id, ps, ca, t, name, back);
    EmailRoundTrip(id, ps, ca, t, name, back);
    IpRoundTrip(id, ps, ca, t, name, back);
    UriRoundTrip(id, ps, ca, t, name, back);
    RulesByField(back, ps);
  }

  lemma RulesByField(a: PolicySpec, b: PolicySpec)
    ensures CompiledRules(a) == CompiledRules(b) <==>
      var r, q := CompiledRules(a), CompiledRules(b);
      && CnRules(a) == CnRules(b) && SanRules(a) == SanRules(b) && EmailRules(a) == EmailRules(b)
      && UriRules(a) == UriRules(b) && IpRules(a) == IpRules(b) && KeyRules(a) == KeyRules(b)
      && SubjectRules(SubjectOf(a).orgs) == SubjectRules(SubjectOf(b).orgs)
      && SubjectRules(SubjectOf(a).orgUnits) == SubjectRules(SubjectOf(b).orgUnits)
      && SubjectRules(SubjectOf(a).localities) == SubjectRules(SubjectOf(b).localities)
      && SubjectRules(SubjectOf(a).states) == SubjectRules(SubjectOf(b).states)
      && SubjectRules(SubjectOf(a).countries) == SubjectRules(SubjectOf(b).countries)
      && r.keyReuse == q.keyReuse && r.csrUploadAllowed == q.csrUploadAllowed
      && r.keyGeneratedByVenafiAllowed == q.keyGeneratedByVenafiAllowed
  {}
}

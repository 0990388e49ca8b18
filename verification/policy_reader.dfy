/** pkg/venafi/cloud: reading a template back, as a policy specification (cloud.go,
    buildPolicySpecification), as the endpoint's policy and as its defaults
    (certificatePolicies.go). */
module PolicyReader {
  import opened Wrappers
  import opened Text
  import opened Sorting
  import opened PolicyModel
  import opened KeyKinds
  import opened PolicyCompiler
  import Decimal

  // ---------- domains ----------

  function DomainOf(regex: string): string {
    UnescapeDots(TrimPrefix(TrimPrefix(TrimPrefix(regex, WILDCARD_PREFIX), HOST_PREFIX), ".*\\."))
  }

  /** pkg/policy/policyUtils.go, RemoveRegex. */
  method RemoveRegex(values: seq<string>) returns (r: Option<seq<string>>)
    ensures r == Listed(values, DomainOf)
  {
    var regexVals: seq<string> := [];
    for i := 0 to |values|
      invariant |regexVals| == i
      invariant forall k | 0 <= k < i :: regexVals[k] == DomainOf(values[k])
    {
      var current := values[i];
      current := TrimPrefix(current, "[*a-z]{1}[a-z0-9.-]*\\.");
      current := TrimPrefix(current, "[a-z]{1}[a-z0-9.-]*\\.");
      current := TrimPrefix(current, ".*\\.");
      current := ReplaceAll(current, "\\.", ".");
      regexVals := regexVals + [current];
    }
    assert values != [] ==> regexVals == Listed(values, DomainOf).value;
    return if |regexVals| > 0 then Some(regexVals) else None;
  }

  predicate IsWildCard(cnRegex: seq<string>) {
    cnRegex != [] && forall v | v in cnRegex :: "[*a" <= v
  }

  // ---------- URI protocols ----------

  /** Appending each value not yet listed. */
  function AddNew(acc: seq<string>, values: seq<string>): seq<string>
    decreases |values|
  {
    if values == [] then acc
    else AddNew(if values[0] in acc then acc else acc + [values[0]], values[1..])
  }

  function Distinct(values: seq<string>): seq<string> {
    AddNew([], values)
  }

  /** The text between the first character and the first `)://`; slicing panics without one. */
  function ProtocolsIn(regex: string): Option<seq<string>> {
    var index := Index(regex, ")://");
    if index < 1 then None else Some(Split(regex[1..index], '|'))
  }

  function ReadProtocols(acc: seq<string>, regexes: seq<string>): Outcome<seq<string>, ()>
    decreases |regexes|
  {
    if regexes == [] then Ok(acc)
    else
      match ProtocolsIn(regexes[0])
      case None => Panic
      case Some(ps) => ReadProtocols(AddNew(acc, ps), regexes[1..])
  }

  lemma AddNewStep(acc: seq<string>, values: seq<string>, i: nat)
    requires i < |values|
    ensures AddNew(acc, values[..i + 1])
         == (var r := AddNew(acc, values[..i]); if values[i] in r then r else r + [values[i]])
    decreases i
  {
    var first := if values[0] in acc then acc else acc + [values[0]];
    if i > 0 {
      AddNewStep(first, values[1..], i - 1);
      assert values[..i + 1][1..] == values[1..][..i];
      assert values[..i][1..] == values[1..][..i - 1];
    } else {
      assert values[..1] == [values[0]];
    }
  }

  lemma ReadProtocolsStep(acc: seq<string>, regexes: seq<string>, i: nat)
    requires i < |regexes|
    requires ReadProtocols(acc, regexes[..i]).Ok?
    ensures ReadProtocols(acc, regexes[..i + 1])
         == (match ProtocolsIn(regexes[i])
             case None => Panic
             case Some(ps) => Ok(AddNew(ReadProtocols(acc, regexes[..i]).value, ps)))
    decreases i
  {
    if i > 0 {
      assert regexes[..i][1..] == regexes[1..][..i - 1];
      ReadProtocolsStep(AddNew(acc, ProtocolsIn(regexes[0]).value), regexes[1..], i - 1);
      assert regexes[..i + 1][1..] == regexes[1..][..i];
    } else {
      assert regexes[..1] == [regexes[0]];
    }
  }

  lemma ReadProtocolsPanics(acc: seq<string>, regexes: seq<string>, i: nat)
    requires i <= |regexes| && ReadProtocols(acc, regexes[..i]) == Panic
    ensures ReadProtocols(acc, regexes) == Panic
    decreases i
  {
    if i > 0 && ProtocolsIn(regexes[0]).Some? {
      assert regexes[..i][1..] == regexes[1..][..i - 1];
      ReadProtocolsPanics(AddNew(acc, ProtocolsIn(regexes[0]).value), regexes[1..], i - 1);
    }
  }

  /** The nested loops that collect protocols, deduplicating through `Contains`. */
  method CollectProtocols(regexes: seq<string>) returns (r: Outcome<seq<string>, ()>)
    ensures r == ReadProtocols([], regexes)
  {
    var protocols: seq<string> := [];
    for i := 0 to |regexes|
      invariant ReadProtocols([], regexes[..i]) == Ok(protocols)
    {
      var val := regexes[i];
      var index := Index(val, ")://");
      ReadProtocolsStep([], regexes, i);
      if index < 1 {
        ReadProtocolsPanics([], regexes, i + 1);
        return Panic;
      }
      var subStr := val[1..index];
      var currProtocols := Split(subStr, '|');
      ghost var before := protocols;
      for j := 0 to |currProtocols|
        invariant protocols == AddNew(before, currProtocols[..j])
      {
        AddNewStep(before, currProtocols, j);
        if |protocols| == 0 {
          protocols := protocols + [currProtocols[j]];
        } else {
          var known := Contains(protocols, currProtocols[j]);
          if !known {
            protocols := protocols + [currProtocols[j]];
          }
        }
      }
      assert currProtocols[..|currProtocols|] == currProtocols;
    }
    assert regexes[..|regexes|] == regexes;
    return Ok(protocols);
  }

  // ---------- the specification read back ----------

  function ReadSubjectList(rules: Option<seq<string>>): seq<string> {
    match rules
    case None => [""]
    case Some(values) => values
  }

  function AllLengths(entries: seq<KeyTypeEntry>): seq<int> {
    if entries == [] then [] else entries[0].keyLengths + AllLengths(entries[1..])
  }

  function AllCurves(entries: seq<KeyTypeEntry>): seq<string> {
    if entries == [] then [] else entries[0].keyCurves + AllCurves(entries[1..])
  }

  function KeyTypeNames(entries: seq<KeyTypeEntry>): seq<string> {
    if entries == [] then [] else [entries[0].keyType] + KeyTypeNames(entries[1..])
  }

  function ReadServiceGenerated(r: Rules): Option<bool> {
    if r.keyGeneratedByVenafiAllowed && r.csrUploadAllowed then None
    else if r.keyGeneratedByVenafiAllowed then Some(true)
    else if r.csrUploadAllowed then Some(false)
    else None
  }

  function ReadKeyPair(r: Rules): Option<KeyPair> {
    var generated := ReadServiceGenerated(r);
    if r.keyTypes == [] && generated == None then None
    else Some(KeyPair(KeyTypeNames(r.keyTypes), AllLengths(r.keyTypes), AllCurves(r.keyTypes), generated,
                      Some(r.keyReuse)))
  }

  function Present<T>(list: Option<seq<T>>): seq<T> {
    list.GetOr([])
  }

  function ReadAltNames(r: Rules): Outcome<Option<SubjectAltNames>, ()> {
    match ReadProtocols([], Present(r.uri))
    case Err(e) => Err(e)
    case Panic => Panic
    case Ok(protocols) =>
      if Present(r.san) == [] && Present(r.email) == [] && Present(r.uri) == [] && Present(r.ip) == [] then Ok(None)
      else Ok(Some(SubjectAltNames(
        if Present(r.san) != [] then Some(true) else None,
        if Present(r.ip) != [] then Some(true) else None,
        if Present(r.email) != [] then Some(true) else None,
        if Present(r.uri) != [] then Some(true) else None,
        None, protocols, [])))
  }

  function NonEmpty(s: string): Option<string> {
    if s != "" then Some(s) else None
  }

  function ReadDefaultSubject(d: TemplateDefaults): Option<DefaultSubject> {
    if d.o == "" && d.ou == "" && d.c == "" && d.st == "" && d.l == "" then None
    else Some(DefaultSubject(NonEmpty(d.o), if d.ou != "" then Some([d.ou]) else None, NonEmpty(d.l),
                             NonEmpty(d.st), NonEmpty(d.c)))
  }

  function ReadDefaultKeyPair(k: Key): Option<DefaultKeyPair> {
    if k.typ == "" && k.length <= 0 && k.curve == "" then None
    else Some(DefaultKeyPair(NonEmpty(k.typ), if k.length > 0 then Some(k.length) else None, NonEmpty(k.curve)))
  }

  function ReadDefaults(d: TemplateDefaults): Option<Default> {
    var s, k := ReadDefaultSubject(d), ReadDefaultKeyPair(d.key);
    if s == None && k == None then None else Some(Default(s, k))
  }

  /** The number of days between the first and the last character, whatever these are; a text of just one
      character panics. */
  function ReadValidity(period: string): Outcome<Option<int>, ()> {
    if period == "" then Ok(None)
    else if |period| == 1 then Panic
    else Ok(Some(Decimal.ParseInt32(period[1..|period| - 1])))
  }

  /** What buildPolicySpecification returns for a template; `ca` is the authority's name when its
      details could be looked up. */
  function ReadSpec(t: Template, ca: Option<string>, removeRegex: bool): Outcome<PolicySpec, ()> {
    var r := t.rules;
    var cn := Present(r.cn);
    match ReadAltNames(r)
    case Err(e) => Err(e)
    case Panic => Panic
    case Ok(san) =>
      match ReadValidity(t.validityPeriod)
      case Err(e) => Err(e)
      case Panic => Panic
      case Ok(days) =>
        var subject := Subject(ReadSubjectList(r.o), ReadSubjectList(r.ou), ReadSubjectList(r.l),
                               ReadSubjectList(r.st), ReadSubjectList(r.c));
        var domains := if removeRegex then Present(Listed(cn, DomainOf)) else cn;
        Ok(PolicySpec([], Some(Policy(domains, Some(IsWildCard(cn)), days, ca, Some(subject), ReadKeyPair(r), san)),
                      ReadDefaults(t.defaults)))
  }

  // ---------- the reader as the source runs it ----------

  method CheckWildCard(cnRegex: seq<string>) returns (r: bool)
    ensures r == IsWildCard(cnRegex)
  {
    if |cnRegex| > 0 {
      for i := 0 to |cnRegex|
        invariant forall k | 0 <= k < i :: "[*a" <= cnRegex[k]
      {
        if !("[*a" <= cnRegex[i]) {
          assert cnRegex[i] in cnRegex;
          return false;
        }
      }
      return true;
    }
    return false;
  }

  lemma KeyListsStep(entries: seq<KeyTypeEntry>, i: nat)
    requires i < |entries|
    ensures AllLengths(entries[..i + 1]) == AllLengths(entries[..i]) + entries[i].keyLengths
    ensures AllCurves(entries[..i + 1]) == AllCurves(entries[..i]) + entries[i].keyCurves
    ensures KeyTypeNames(entries[..i + 1]) == KeyTypeNames(entries[..i]) + [entries[i].keyType]
  {
    if i > 0 {
      KeyListsStep(entries[1..], i - 1);
      assert entries[..i + 1][1..] == entries[1..][..i];
      assert entries[..i][1..] == entries[1..][..i - 1];
    } else {
      assert entries[..1] == [entries[0]];
    }
  }

  method BuildKeyPair(r: Rules) returns (keyPair: Option<KeyPair>)
    ensures keyPair == ReadKeyPair(r)
  {
    var kp := KeyPair([], [], [], None, None);
    var shouldCreateKeyPair := false;
    if |r.keyTypes| > 0 {
      var keyTypes: seq<string> := [];
      var keySizes: seq<int> := [];
      var ellipticCurves: seq<string> := [];
      for i := 0 to |r.keyTypes|
        invariant keyTypes == KeyTypeNames(r.keyTypes[..i])
        invariant keySizes == AllLengths(r.keyTypes[..i])
        invariant ellipticCurves == AllCurves(r.keyTypes[..i])
      {
        KeyListsStep(r.keyTypes, i);
        keyTypes := keyTypes + [r.keyTypes[i].keyType];
        if |r.keyTypes[i].keyLengths| > 0 {
          keySizes := keySizes + r.keyTypes[i].keyLengths;
        }
        if |r.keyTypes[i].keyCurves| > 0 {
          ellipticCurves := ellipticCurves + r.keyTypes[i].keyCurves;
        }
      }
      assert r.keyTypes[..|r.keyTypes|] == r.keyTypes;
      shouldCreateKeyPair := true;
      kp := kp.(keyTypes := keyTypes, rsaKeySizes := keySizes, ellipticCurves := ellipticCurves);
    }
    if r.keyGeneratedByVenafiAllowed && r.csrUploadAllowed {
      kp := kp.(serviceGenerated := None);
    } else if r.keyGeneratedByVenafiAllowed {
      kp, shouldCreateKeyPair := kp.(serviceGenerated := Some(true)), true;
    } else if r.csrUploadAllowed {
      kp, shouldCreateKeyPair := kp.(serviceGenerated := Some(false)), true;
    }
    if shouldCreateKeyPair {
      return Some(kp.(reuseAllowed := Some(r.keyReuse)));
    }
    return None;
  }

  method BuildAltNames(r: Rules) returns (result: Outcome<Option<SubjectAltNames>, ()>)
    ensures result == ReadAltNames(r)
  {
    var san := SubjectAltNames(None, None, None, None, None, [], []);
    var created := false;
    if |Present(r.san)| > 0 {
      san, created := san.(dnsAllowed := Some(true)), true;
    }
    if |Present(r.email)| > 0 {
      san, created := san.(emailAllowed := Some(true)), true;
    }
    if |Present(r.uri)| > 0 {
      var protocols := CollectProtocols(r.uri.value);
      if !protocols.Ok? {
        return match protocols case Err(e) => Err(e) case _ => Panic;
      }
      san, created := san.(uriProtocols := protocols.value, uriAllowed := Some(true)), true;
    }
    if |Present(r.ip)| > 0 {
      san, created := san.(ipAllowed := Some(true)), true;
    }
    return Ok(if created then Some(san) else None);
  }

  method BuildValidity(period: string) returns (result: Outcome<Option<int>, ()>)
    ensures result == ReadValidity(period)
  {
    if period == "" {
      return Ok(None);
    }
    if |period| == 1 {
      return Panic;
    }
    var days := period[1..|period| - 1];
    return Ok(Some(Decimal.ParseInt32(days)));
  }

  method BuildPolicySpecification(t: Template, ca: Option<string>, removeRegex: bool)
    returns (result: Outcome<PolicySpec, ()>)
    ensures result == ReadSpec(t, ca, removeRegex)
  {
    var r := t.rules;
    var pol := Policy([], None, None, None, None, None, None);
    if |Present(r.cn)| > 0 {
      if removeRegex {
        var domains := RemoveRegex(r.cn.value);
        pol := pol.(domains := Present(domains));
      } else {
        pol := pol.(domains := r.cn.value);
      }
    }
    var wildCard := CheckWildCard(Present(r.cn));
    pol := pol.(wildcardAllowed := Some(wildCard));
    var san := BuildAltNames(r);
    if !san.Ok? {
      return match san case Err(e) => Err(e) case _ => Panic;
    }
    var days := BuildValidity(t.validityPeriod);
    if !days.Ok? {
      return match days case Err(e) => Err(e) case _ => Panic;
    }
    pol := pol.(subjectAltNames := san.value, maxValidDays := days.value, certificateAuthority := ca);
    pol := pol.(subject := Some(Subject(ReadSubjectList(r.o), ReadSubjectList(r.ou), ReadSubjectList(r.l),
                                        ReadSubjectList(r.st), ReadSubjectList(r.c))));
    var keyPair := BuildKeyPair(r);
    pol := pol.(keyPair := keyPair);
    return Ok(PolicySpec([], Some(pol), ReadDefaults(t.defaults)));
  }

  // ---------- the endpoint's policy ----------

  /** toPolicy's addStartEnd: the expression must match the whole value. */
  function Anchored(s: string): string {
    var t := if "^" <= s then s else "^" + s;
    if HasSuffix(t, "$") then t else t + "$"
  }

  function AnchoredAll(ss: Option<seq<string>>): (r: Option<seq<string>>)
    ensures r.Some? <==> ss.Some?
    ensures r.Some? ==> |r.value| == |ss.value| && forall k | 0 <= k < |r.value| :: r.value[k] == Anchored(ss.value[k])
  {
    match ss
    case None => None
    case Some(xs) => Some(seq(|xs|, k requires 0 <= k < |xs| => Anchored(xs[k])))
  }

  method AddStartEndToArray(ss: Option<seq<string>>) returns (r: Option<seq<string>>)
    ensures r == AnchoredAll(ss)
  {
    if ss == None {
      return None;
    }
    var a := new string[|ss.value|](_ => "");
    for i := 0 to |ss.value|
      invariant forall k | 0 <= k < i :: a[k] == Anchored(ss.value[k])
    {
      a[i] := Anchored(ss.value[i]);
    }
    assert a[..] == AnchoredAll(ss).value;
    return Some(a[..]);
  }

  function CurvesOf(names: seq<string>): (r: seq<Curve>)
    ensures |r| == |names| && forall k | 0 <= k < |r| :: r[k] == CurveOf(names[k])
  {
    seq(|names|, k requires 0 <= k < |names| => CurveOf(names[k]))
  }

  predicate KnownKinds(entries: seq<KeyTypeEntry>) {
    forall k | 0 <= k < |entries| :: KindOf(entries[k].keyType, "").Some?
  }

  function ConfigOf(entry: KeyTypeEntry): KeyConfig
    requires KindOf(entry.keyType, "").Some?
  {
    KeyConfig(KindOf(entry.keyType, "").value, entry.keyLengths, CurvesOf(entry.keyCurves))
  }

  /** One configuration per entry; an unknown key type panics. */
  function KeyConfigs(entries: seq<KeyTypeEntry>): Outcome<seq<KeyConfig>, ()> {
    if KnownKinds(entries) then Ok(seq(|entries|, k requires 0 <= k < |entries| => ConfigOf(entries[k]))) else Panic
  }

  predicate AllowsAnyHost(regexes: Option<seq<string>>) {
    regexes.Some? && exists k | 0 <= k < |regexes.value| :: "^.*" <= regexes.value[k]
  }

  function ToPolicy(t: Template): Outcome<EndpointPolicy, ()> {
    var r := t.rules;
    match KeyConfigs(r.keyTypes)
    case Err(e) => Err(e)
    case Panic => Panic
    case Ok(configs) =>
      Ok(EndpointPolicy(
        AnchoredAll(r.cn), AnchoredAll(r.o), AnchoredAll(r.ou), AnchoredAll(r.st), AnchoredAll(r.l), AnchoredAll(r.c),
        AnchoredAll(r.san), AnchoredAll(r.email), AnchoredAll(r.uri), r.keyReuse,
        AllowsAnyHost(AnchoredAll(r.cn)) || AllowsAnyHost(AnchoredAll(r.san)), configs))
  }

  method BuildKeyConfigs(entries: seq<KeyTypeEntry>) returns (r: Outcome<seq<KeyConfig>, ()>)
    ensures r == KeyConfigs(entries)
  {
    var configs: seq<KeyConfig> := [];
    for i := 0 to |entries|
      invariant |configs| == i
      invariant forall k | 0 <= k < i :: KindOf(entries[k].keyType, "").Some? && configs[k] == ConfigOf(entries[k])
    {
      var kind := KindOf(entries[i].keyType, "");
      if kind == None {
        return Panic;
      }
      var keyCurves: seq<Curve> := [];
      for j := 0 to |entries[i].keyCurves|
        invariant keyCurves == CurvesOf(entries[i].keyCurves)[..j]
      {
        keyCurves := keyCurves + [CurveOf(entries[i].keyCurves[j])];
      }
      configs := configs + [KeyConfig(kind.value, entries[i].keyLengths, keyCurves)];
    }
    assert configs == KeyConfigs(entries).value;
    return Ok(configs);
  }

  method HasOpenPrefix(regexes: Option<seq<string>>) returns (r: bool)
    ensures r == AllowsAnyHost(regexes)
  {
    r := false;
    if regexes.Some? {
      for i := 0 to |regexes.value|
        invariant r <==> exists k | 0 <= k < i :: "^.*" <= regexes.value[k]
      {
        if "^.*" <= regexes.value[i] {
          r := true;
        }
      }
    }
  }

  method BuildPolicy(t: Template) returns (p: Outcome<EndpointPolicy, ()>)
    ensures p == ToPolicy(t)
  {
    var r := t.rules;
    var cn := AddStartEndToArray(r.cn);
    var ou := AddStartEndToArray(r.ou);
    var c := AddStartEndToArray(r.c);
    var st := AddStartEndToArray(r.st);
    var l := AddStartEndToArray(r.l);
    var o := AddStartEndToArray(r.o);
    var dns := AddStartEndToArray(r.san);
    var email := AddStartEndToArray(r.email);
    var uri := AddStartEndToArray(r.uri);
    var anyCn := HasOpenPrefix(cn);
    var anyDns := HasOpenPrefix(dns);
    var configs := BuildKeyConfigs(r.keyTypes);
    if !configs.Ok? {
      return match configs case Err(e) => Err(e) case _ => Panic;
    }
    return Ok(EndpointPolicy(cn, o, ou, st, l, c, dns, email, uri, r.keyReuse, anyCn || anyDns, configs.value));
  }
}

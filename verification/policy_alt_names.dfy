/** What the email and URI settings of a specification mean to the endpoint that enforces the compiled
    template. */
module PolicyAltNames {
  import opened Wrappers
  import opened Seqs
  import opened Text
  import opened Regex
  import opened PolicyModel
  import opened PolicyCompiler
  import opened PolicyReader
  import opened PolicyNames
  import opened PolicyValues
  import opened PolicyRoundTrip
  import opened PolicyEndToEnd
  import opened Endpoint

  lemma AltNameParts(id: string, ps: PolicySpec, ca: CADetails, t: Template, p: EndpointPolicy)
    requires EnforcedAs(id, ps, ca, t, p)
    ensures p.emailSan == AnchoredAll(EmailRules(ps)) && p.uriSan == AnchoredAll(UriRules(ps))
  {
    TemplateParts(id, ps, ca);
  }

  // ---------- email ----------

  /** Without a domain an address needs an `@` and no line break. */
  lemma OpenEmailMeaning(s: string)
    ensures MatchString(Anchored(".*@.*"), s) <==> '@' in s && '\n' !in s
  {
    AtThenAnything("");
    RunHead("@.*", s);
    assert ".*" + "@.*" == ".*@.*";
    ValueMeaning(".*@.*", s);
    forall j | 0 <= j <= |s| ensures StandsFor("@.*", s[j..]) <==> AtHere(s, j) {
      AtThenAnything(s[j..]);
      if j < |s| {
        assert s[j..][1..] == s[j + 1..];
      }
    }
    AddressOnOneLine(s);
  }

  predicate AtHere(s: string, j: nat) {
    j < |s| && s[j] == '@' && '\n' !in s[j + 1..]
  }

  lemma AddressOnOneLine(s: string)
    ensures (exists j | 0 <= j <= |s| :: '\n' !in s[..j] && AtHere(s, j)) <==> '@' in s && '\n' !in s
  {
    if j :| 0 <= j <= |s| && '\n' !in s[..j] && AtHere(s, j) {
      assert s == s[..j] + [s[j]] + s[j + 1..];
    }
    if '@' in s && '\n' !in s {
      var j :| 0 <= j < |s| && s[j] == '@';
      assert '\n' !in s[..j] && AtHere(s, j);
    }
  }

  lemma AtThenAnything(s: string)
    ensures Legible("@.*")
    ensures StandsFor("@.*", s) <==> s != "" && s[0] == '@' && '\n' !in s[1..]
  {
    var rest := if s != "" then s[1..] else s;
    OpenValue(rest);
    PlainHead('@', ".*", s);
    assert ['@'] + ".*" == "@.*";
  }

  ghost predicate EmailUnder(s: string, domain: string) {
    HasSuffix(s, "@" + domain) && '\n' !in s[..|s| - |domain| - 1]
  }

  /** An email name passes only if email is allowed; then exactly if it is an address under a listed
      domain, or, where none is listed, any address on one line. */
  lemma CompiledEmailMeaning(id: string, ps: PolicySpec, ca: CADetails, t: Template, p: EndpointPolicy, s: string)
    requires EnforcedAs(id, ps, ca, t, p)
    ensures var passes := CheckStringByRegexp(s, Present(p.emailSan));
            && (SanOf(ps).emailAllowed != Some(true) ==> !passes)
            && (SanOf(ps).emailAllowed == Some(true) && DomainsOf(ps) == [] ==> (passes <==> '@' in s && '\n' !in s))
            && (SanOf(ps).emailAllowed == Some(true) && DomainsOf(ps) != []
                && (forall k | 0 <= k < |DomainsOf(ps)| :: OnlyDotsSpecial(DomainsOf(ps)[k])) ==>
                  (passes <==> exists k | 0 <= k < |DomainsOf(ps)| :: EmailUnder(s, DomainsOf(ps)[k])))
  {
    AltNameParts(id, ps, ca, t, p);
    var domains := DomainsOf(ps);
    if domains == [] {
      OnlyRule(s, ".*@.*");
      OpenEmailMeaning(s);
    } else {
      forall k | 0 <= k < |domains| && OnlyDotsSpecial(domains[k])
        ensures MatchString(Anchored(EmailRegex(domains[k])), s) <==> EmailUnder(s, domains[k])
      {
        EmailRegexMeaning(domains[k], s);
      }
    }
  }

  // ---------- URIs ----------

  /** Without a domain the compiled expression ends in an escaped dot and starred escaped dots. */
  function OpenUriTail(): seq<Piece> {
    Lits("://") + ([Star(Any)] + ([One(Lit('.'))] + ([Star(Lit('.'))] + [End])))
  }

  lemma ParseDots()
    ensures Parse("\\.\\.*$") == Some([One(Lit('.'))] + ([Star(Lit('.'))] + [End]))
  {
    var dots, more := "\\.\\.*$", "\\.*$";
    ParseEnd();
    assert more[2..] == "*$" && "*$"[1..] == "$" && dots[2..] == more;
    assert ParsePiece(more) == Some((Star(Lit('.')), "$"));
    ParseStep(more, Star(Lit('.')), "$", [End]);
    assert ParsePiece(dots) == Some((One(Lit('.')), more));
    ParseStep(dots, One(Lit('.')), more, [Star(Lit('.'))] + [End]);
  }

  lemma OpenTailText()
    ensures "://" + (".*" + "\\.\\.*$") == "://.*\\.\\.*$"
    ensures (".*" + "\\.\\.*$")[0] == '.' && forall k | 0 <= k < 3 :: !IsMeta("://"[k])
  {}

  lemma ParseOpenUriTail()
    ensures Parse("://.*\\.\\.*$") == Some(OpenUriTail())
  {
    var dots := "\\.\\.*$";
    var pieces := [One(Lit('.'))] + ([Star(Lit('.'))] + [End]);
    ParseDots();
    ParseAnyRun(dots);
    ParseStep(".*" + dots, Star(Any), dots, pieces);
    OpenTailText();
    ParseTextThen("://", ".*" + dots, [Star(Any)] + pieces);
  }

  lemma OpenUriText(ps: seq<string>)
    ensures Anchored(UriRegex(ps, ".*")) == "^" + ("(" + Join(ps, "|") + (")" + "://.*\\.\\.*$"))
  {
    assert EscapeDots(".*") == "\\.*" by {
      EscapeStep(".*");
      assert ".*"[1..] == "*";
      EscapeStep("*");
      assert "*"[1..] == "";
    }
    var r := "(" + Join(ps, "|") + ")://.*\\." + "\\.*";
    assert UriRegex(ps, ".*") == r;
    var t := "^" + r;
    assert r[0] == '(' && t[|t| - 1] == '*' && t[|t| - 1..] == [t[|t| - 1]];
    assert t + "$" == "^" + ("(" + Join(ps, "|") + (")" + "://.*\\.\\.*$"));
  }

  lemma DotsMeaning(s: string, j: nat)
    requires j <= |s|
    ensures MatchFrom([One(Lit('.'))] + ([Star(Lit('.'))] + [End]), s, j)
       <==> j < |s| && forall k | j <= k < |s| :: s[k] == '.'
  {
    var dots := [Star(Lit('.'))] + [End];
    Cut([One(Lit('.'))], dots);
    assert [End][1..] == [];
    if j < |s| && s[j] == '.' {
      var i := j + 1;
      StarMeaning(Lit('.'), [End], s, i);
      if forall k | j <= k < |s| :: s[k] == '.' {
        assert StarReaches(Lit('.'), [End], s, i, |s|);
      }
      if n: nat :| StarReaches(Lit('.'), [End], s, i, n) {
        assert n == |s|;
        assert forall k | i <= k < |s| :: s[k] == s[i..n][k - i];
      }
    }
  }

  /** What a URI must be where no domain is listed: a protocol, and then text on one line that ends in
      a dot. */
  predicate OpenUriUnder(s: string, protocol: string) {
    protocol + "://" <= s
    && var rest := s[|protocol| + 3..]; rest != "" && rest[|rest| - 1] == '.' && '\n' !in rest
  }

  lemma OpenRunMeaning(s: string, i: nat)
    requires i <= |s|
    ensures MatchFrom([Star(Any)] + ([One(Lit('.'))] + ([Star(Lit('.'))] + [End])), s, i)
       <==> i < |s| && s[|s| - 1] == '.' && '\n' !in s[i..]
  {
    var dots := [One(Lit('.'))] + ([Star(Lit('.'))] + [End]);
    StarMeaning(Any, dots, s, i);
    if j: nat :| StarReaches(Any, dots, s, i, j) {
      DotsMeaning(s, j);
      AnyRun(s[i..j]);
      forall k | i <= k < |s| ensures s[k] != '\n' {
        assert k < j ==> s[k] == s[i..j][k - i];
      }
    }
    if i < |s| && s[|s| - 1] == '.' && '\n' !in s[i..] {
      DotsMeaning(s, |s| - 1);
      AnyRun(s[i..|s| - 1]);
      assert forall c | c in s[i..|s| - 1] :: c in s[i..];
      assert StarReaches(Any, dots, s, i, |s| - 1);
    }
  }

  lemma OpenUriTailMeaning(protocol: string, s: string)
    requires protocol <= s
    ensures MatchFrom(OpenUriTail(), s, |protocol|) <==> OpenUriUnder(s, protocol)
  {
    var n := |protocol|;
    LitsThen("://", [Star(Any)] + ([One(Lit('.'))] + ([Star(Lit('.'))] + [End])), s, n);
    assert "://" <= s[n..] <==> protocol + "://" <= s by {
      TakeDrop(s, n);
      assert s[..n] == protocol;
      if protocol + "://" <= s {
        assert s[n..][..3] == s[..n + 3][n..] == "://";
      }
      if "://" <= s[n..] {
        assert s[..n + 3] == s[..n] + s[n..][..3];
      }
    }
    if protocol + "://" <= s {
      OpenRunMeaning(s, n + 3);
    }
  }

  lemma OpenUriMeaning(ps: seq<string>, s: string)
    requires ps != [] && forall k | 0 <= k < |ps| :: LiteralProtocol(ps[k])
    ensures MatchString(Anchored(UriRegex(ps, ".*")), s) <==> exists k | 0 <= k < |ps| :: OpenUriUnder(s, ps[k])
  {
    var body := Join(ps, "|");
    OpenUriText(ps);
    JoinedLiterals(ps);
    SplitJoin(ps, '|');
    ParseOpenUriTail();
    ParseGroup(body, "://.*\\.\\.*$");
    ParseStep("(" + body + (")" + "://.*\\.\\.*$"), Alt(ps), "://.*\\.\\.*$", OpenUriTail());
    ParseBegin("(" + body + (")" + "://.*\\.\\.*$"));
    SearchAnchored([Alt(ps)] + OpenUriTail(), s);
    AltMeaning(ps, OpenUriTail(), s, 0);
    assert s[0..] == s;
    forall k | 0 <= k < |ps| ensures ps[k] <= s && MatchFrom(OpenUriTail(), s, |ps[k]|) <==> OpenUriUnder(s, ps[k]) {
      if ps[k] <= s {
        OpenUriTailMeaning(ps[k], s);
      }
    }
  }

  /** A URI passes exactly if protocols are listed and it has one of them under a listed domain; where
      no domain is listed, exactly if it has one of them and ends in a dot. */
  lemma CompiledUriMeaning(id: string, ps: PolicySpec, ca: CADetails, t: Template, p: EndpointPolicy, s: string)
    requires EnforcedAs(id, ps, ca, t, p)
    ensures var passes := CheckStringByRegexp(s, Present(p.uriSan));
            var protocols, domains := SanOf(ps).uriProtocols, DomainsOf(ps);
            var literal := forall k | 0 <= k < |protocols| :: LiteralProtocol(protocols[k]);
            && (protocols == [] ==> !passes)
            && (literal && domains == [] ==>
                  (passes <==> exists k | 0 <= k < |protocols| :: OpenUriUnder(s, protocols[k])))
            && (literal && domains != [] && (forall d | 0 <= d < |domains| :: OnlyDotsSpecial(domains[d])) ==>
                  (passes <==> exists d, k | 0 <= d < |domains| && 0 <= k < |protocols| ::
                                 UriUnder(s, protocols[k], domains[d])))
  {
    AltNameParts(id, ps, ca, t, p);
    var protocols, domains := SanOf(ps).uriProtocols, DomainsOf(ps);
    if protocols != [] && forall k | 0 <= k < |protocols| :: LiteralProtocol(protocols[k]) {
      if domains == [] {
        OpenUriRules(protocols, s);
      } else if forall d | 0 <= d < |domains| :: OnlyDotsSpecial(domains[d]) {
        UriRulesMeaning(protocols, domains, s);
      }
    }
  }

  lemma OpenUriRules(protocols: seq<string>, s: string)
    requires protocols != [] && forall k | 0 <= k < |protocols| :: LiteralProtocol(protocols[k])
    ensures CheckStringByRegexp(s, Present(AnchoredAll(UriRegexes(protocols, [".*"]))))
       <==> exists k | 0 <= k < |protocols| :: OpenUriUnder(s, protocols[k])
  {
    var open := [".*"];
    assert UriRegexes(protocols, open).value[0] == UriRegex(protocols, open[0]);
    assert UriRegexes(protocols, open).value == [UriRegex(protocols, ".*")];
    OnlyRule(s, UriRegex(protocols, ".*"));
    OpenUriMeaning(protocols, s);
  }

  lemma UriRulesMeaning(protocols: seq<string>, domains: seq<string>, s: string)
    requires protocols != [] && forall k | 0 <= k < |protocols| :: LiteralProtocol(protocols[k])
    requires domains != [] && forall d | 0 <= d < |domains| :: OnlyDotsSpecial(domains[d])
    ensures CheckStringByRegexp(s, Present(AnchoredAll(UriRegexes(protocols, domains))))
       <==> exists d, k | 0 <= d < |domains| && 0 <= k < |protocols| :: UriUnder(s, protocols[k], domains[d])
  {
    forall d | 0 <= d < |domains|
      ensures MatchString(Anchored(UriRegex(protocols, domains[d])), s)
         <==> exists k | 0 <= k < |protocols| :: UriUnder(s, protocols[k], domains[d])
    {
      UriRegexMeaning(protocols, domains[d], s);
    }
  }

  /** Whether URIs are allowed is checked by validation only: it changes nothing of the rules. */
  lemma UriAllowedIsIgnored(ps: PolicySpec, again: PolicySpec, allowed: Option<bool>)
    requires ps.policy.Some? && ps.policy.value.subjectAltNames.Some?
    requires again == ps.(policy := Some(ps.policy.value.(subjectAltNames := Some(SanOf(ps).(uriAllowed := allowed)))))
    ensures CompiledRules(again) == CompiledRules(ps)
  {
    var a, b := CompiledRules(again), CompiledRules(ps);
    assert a.cn == b.cn && a.san == b.san && a.email == b.email && a.uri == b.uri && a.ip == b.ip;
    assert a.keyTypes == b.keyTypes && SubjectOf(again) == SubjectOf(ps) && KeyPairOf(again) == KeyPairOf(ps);
  }
}

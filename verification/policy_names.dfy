/** What the compiled name expressions mean, and that reading them back loses nothing. */
module PolicyNames {
  import opened Wrappers
  import opened Seqs
  import opened Text
  import opened Regex
  import opened PolicyCompiler
  import opened PolicyReader
  import opened Endpoint

  // ---------- reading domains back ----------

  /** After escaping, every dot has a backslash before it. */
  lemma {:induction false} EscapedDots(s: string)
    ensures var e := EscapeDots(s); forall k | 0 <= k < |e| && e[k] == '.' :: k > 0 && e[k - 1] == '\\'
  {
    if s != "" {
      EscapeStep(s);
      EscapedDots(s[1..]);
      var e, head := EscapeDots(s), if s[0] == '.' then "\\." else [s[0]];
      forall k | 0 <= k < |e| && e[k] == '.' ensures k > 0 && e[k - 1] == '\\' {
        if k >= |head| {
          assert e[k] == EscapeDots(s[1..])[k - |head|];
          assert e[k - 1] == EscapeDots(s[1..])[k - |head| - 1];
        }
      }
    }
  }

  lemma NotAHostPrefix(d: string)
    ensures !(HOST_PREFIX <= EscapeDots(d)) && !(".*\\." <= EscapeDots(d))
  {
    EscapedDots(d);
    var e := EscapeDots(d);
    assert HOST_PREFIX[15] == '.' && HOST_PREFIX[14] == '9';
    assert |e| > 15 && e[15] == '.' ==> e[14] == '\\';
    assert |e| > 0 ==> e[0] != '.';
  }

  /** Removing the expression around a domain gives the domain, whatever characters it holds. */
  lemma DomainOfHostRegex(d: string, wildcard: bool)
    ensures DomainOf(HostRegex(d, wildcard)) == d
  {
    var e := EscapeDots(d);
    NotAHostPrefix(d);
    UnescapeEscape(d);
    if wildcard {
      TrimOwnPrefix(WILDCARD_PREFIX, e);
    } else {
      assert HostRegex(d, wildcard)[1] == 'a' && WILDCARD_PREFIX[1] == '*';
      TrimOwnPrefix(HOST_PREFIX, e);
    }
  }

  /** RemoveRegex undoes ConvertToRegex on every list of texts, and isWildCard recovers the flag. */
  lemma DomainsRoundTrip(domains: seq<string>, wildcard: bool)
    ensures Present(Listed(Present(HostRegexes(domains, wildcard)), DomainOf)) == domains
    ensures domains != [] ==> IsWildCard(Present(HostRegexes(domains, wildcard))) == wildcard
  {
    var regexes := Present(HostRegexes(domains, wildcard));
    forall k | 0 <= k < |domains| ensures DomainOf(regexes[k]) == domains[k] {
      DomainOfHostRegex(domains[k], wildcard);
    }
    if domains != [] {
      if wildcard {
        forall v | v in regexes ensures "[*a" <= v {
          assert "[*a" <= WILDCARD_PREFIX;
        }
      } else {
        assert regexes[0] in regexes && regexes[0][1] == 'a';
      }
    }
  }

  // ---------- reading protocols back ----------

  /** Texts the compiled group can carry: free of the separator and of the closing mark. */
  ghost predicate PlainProtocol(p: string) {
    '|' !in p && forall j: nat :: !OccursAt(p, ")://", j)
  }

  lemma MarkAt(s: string, j: nat)
    ensures OccursAt(s, ")://", j)
       <==> j + 4 <= |s| && s[j] == ')' && s[j + 1] == ':' && s[j + 2] == '/' && s[j + 3] == '/'
  {
    if j + 4 <= |s| {
      assert s[j..j + 4] == [s[j], s[j + 1], s[j + 2], s[j + 3]];
    }
  }

  /** The closing mark does not occur in the joined protocols, even across their boundaries. */
  lemma {:induction false} NoMarkInJoined(ps: seq<string>, j: nat)
    requires forall k | 0 <= k < |ps| :: PlainProtocol(ps[k])
    ensures !OccursAt(Join(ps, "|"), ")://", j)
  {
    var joined := Join(ps, "|");
    MarkAt(joined, j);
    if |ps| >= 2 {
      var n, tail := |ps[0]|, Join(ps[1..], "|");
      assert joined == ps[0] + "|" + tail;
      assert joined[n] == '|';
      assert !OccursAt(ps[0], ")://", j);
      MarkAt(ps[0], j);
      if j > n {
        MarkAt(tail, j - n - 1);
        NoMarkInJoined(ps[1..], j - n - 1);
      }
    }
  }

  lemma MarkAfterGroup(joined: string, tail: string)
    requires forall j: nat :: !OccursAt(joined, ")://", j)
    ensures var r := "(" + joined + (")://" + tail);
            Index(r, ")://") == |joined| + 1 && r[1..|joined| + 1] == joined
  {
    var r := "(" + joined + (")://" + tail);
    var i := |joined| + 1;
    MarkAt(r, i);
    forall j: nat | j < i ensures !OccursAt(r, ")://", j) {
      MarkAt(r, j);
      assert r[0] == '(';
      if j > 0 {
        MarkAt(joined, j - 1);
      }
    }
    IndexIs(r, ")://", i);
    Cut("(" + joined, ")://" + tail);
    Cut("(", joined);
    assert r[1..i] == r[..i][1..];
  }

  lemma MarkInGroup(joined: string, n: nat, tail: string)
    requires OccursAt(joined, ")://", n) && forall j: nat | j < n :: !OccursAt(joined, ")://", j)
    ensures var r := "(" + joined + (")://" + tail); Index(r, ")://") == n + 1 && r[1..n + 1] == joined[..n]
  {
    var r := "(" + joined + (")://" + tail);
    MarkAt(joined, n);
    MarkAt(r, n + 1);
    forall j: nat | j < n + 1 ensures !OccursAt(r, ")://", j) {
      MarkAt(r, j);
      assert r[0] == '(';
      if j > 0 {
        MarkAt(joined, j - 1);
      }
    }
    IndexIs(r, ")://", n + 1);
    Cut("(" + joined, ")://" + tail);
    Cut("(", joined);
    assert r[1..n + 1] == r[..|joined| + 1][1..][..n];
  }

  /** The protocols as the group carries them: cut at every separator, up to the first closing mark. */
  function CarriedProtocols(ps: seq<string>): (r: seq<string>)
    ensures |r| >= 1 && forall k | 0 <= k < |r| :: '|' !in r[k]
  {
    var joined := Join(ps, "|");
    var n := Index(joined, ")://");
    Split(if n == -1 then joined else joined[..n], '|')
  }

  /** What the reader finds in a compiled URI expression, whatever the protocols hold. */
  lemma ProtocolsOfUriRegex(ps: seq<string>, domain: string)
    ensures ProtocolsIn(UriRegex(ps, domain)) == Some(CarriedProtocols(ps))
  {
    var joined, tail := Join(ps, "|"), ".*\\." + EscapeDots(domain);
    assert UriRegex(ps, domain) == "(" + joined + (")://" + tail);
    var n := Index(joined, ")://");
    if n == -1 {
      MarkAfterGroup(joined, tail);
    } else {
      MarkInGroup(joined, n, tail);
    }
  }

  lemma PlainCarried(ps: seq<string>)
    requires ps != [] && forall k | 0 <= k < |ps| :: PlainProtocol(ps[k])
    ensures CarriedProtocols(ps) == ps
  {
    forall j: nat ensures !OccursAt(Join(ps, "|"), ")://", j) {
      NoMarkInJoined(ps, j);
    }
    SplitJoin(ps, '|');
  }

  /** Adding values already present changes nothing. */
  lemma {:induction false} AddKnown(acc: seq<string>, values: seq<string>)
    requires forall v | v in values :: v in acc
    ensures AddNew(acc, values) == acc
    decreases |values|
  {
    if values != [] {
      AddKnown(acc, values[1..]);
    }
  }

  lemma {:induction false} AddNewHolds(acc: seq<string>, values: seq<string>)
    ensures forall v :: v in AddNew(acc, values) <==> v in acc || v in values
    decreases |values|
  {
    if values != [] {
      AddNewHolds(if values[0] in acc then acc else acc + [values[0]], values[1..]);
      assert values == [values[0]] + values[1..];
    }
  }

  lemma {:induction false} ReadSame(ps: seq<string>, acc: seq<string>, regexes: seq<string>)
    requires forall k | 0 <= k < |regexes| :: ProtocolsIn(regexes[k]) == Some(ps)
    requires forall v | v in ps :: v in acc
    ensures ReadProtocols(acc, regexes) == Ok(acc)
  {
    if regexes != [] {
      AddKnown(acc, ps);
      ReadSame(ps, acc, regexes[1..]);
    }
  }

  /** Reading the compiled URI expressions, one per domain, gives each carried protocol once, in the
      order of first mention; and these are the protocols themselves if none holds the separator or
      the closing mark. */
  lemma ProtocolsRoundTrip(ps: seq<string>, domains: seq<string>)
    requires ps != [] && domains != []
    ensures ReadProtocols([], Present(UriRegexes(ps, domains))) == Ok(Distinct(CarriedProtocols(ps)))
    ensures (forall k | 0 <= k < |ps| :: PlainProtocol(ps[k])) ==> CarriedProtocols(ps) == ps
  {
    var regexes, carried := Present(UriRegexes(ps, domains)), CarriedProtocols(ps);
    forall k | 0 <= k < |regexes| ensures ProtocolsIn(regexes[k]) == Some(carried) {
      ProtocolsOfUriRegex(ps, domains[k]);
    }
    AddNewHolds([], carried);
    ReadSame(carried, Distinct(carried), regexes[1..]);
    if forall k | 0 <= k < |ps| :: PlainProtocol(ps[k]) {
      PlainCarried(ps);
    }
  }

  // ---------- compiling the protocols read back ----------

  function Weight(values: seq<string>): nat {
    if values == [] then 0 else Weight(values[..|values| - 1]) + |values[|values| - 1]| + 1
  }

  lemma {:induction false} WeightCons(values: seq<string>)
    requires values != []
    ensures Weight(values) == |values[0]| + 1 + Weight(values[1..])
    decreases |values|
  {
    var n := |values| - 1;
    if n > 0 {
      WeightCons(values[..n]);
      assert values[..n][1..] == values[1..][..n - 1];
    }
  }

  lemma {:induction false} DistinctIsNoHeavier(acc: seq<string>, values: seq<string>)
    ensures Weight(AddNew(acc, values)) <= Weight(acc) + Weight(values)
    decreases |values|
  {
    if values != [] {
      WeightCons(values);
      assert (acc + [values[0]])[..|acc|] == acc;
      DistinctIsNoHeavier(if values[0] in acc then acc else acc + [values[0]], values[1..]);
    }
  }

  lemma {:induction false} JoinLength(values: seq<string>)
    requires values != []
    ensures |Join(values, "|")| + 1 == Weight(values)
  {
    WeightCons(values);
    if |values| > 1 {
      JoinLength(values[1..]);
    }
  }

  /** The joined protocols hold no closing mark, and no part between separators twice. */
  ghost predicate ReadableProtocols(ps: seq<string>) {
    (forall j: nat :: !OccursAt(Join(ps, "|"), ")://", j)) && NoRepeats(Split(Join(ps, "|"), '|'))
  }

  /** Joining the distinct carried protocols gives the text they were read from exactly if the protocols
      are readable. */
  lemma RejoinedIff(ps: seq<string>)
    ensures Join(Distinct(CarriedProtocols(ps)), "|") == Join(ps, "|") <==> ReadableProtocols(ps)
  {
    var joined, carried := Join(ps, "|"), CarriedProtocols(ps);
    var distinct := Distinct(carried);
    AddNewHolds([], carried);
    AddNewNoRepeats([], carried);
    assert carried[0] in distinct;
    if n: nat :| OccursAt(joined, ")://", n) {
      DistinctIsNoHeavier([], carried);
      JoinLength(distinct);
      JoinLength(carried);
    } else if NoRepeats(carried) {
      Empty(carried);
      DistinctOfNoRepeats([], carried);
    } else {
      forall k | 0 <= k < |distinct| ensures '|' !in distinct[k] {
        assert distinct[k] in carried;
      }
      SplitJoin(distinct, '|');
    }
  }

  /** `Distinct` lists every value, once, each at its first mention: a value's position among the
      distinct ones is the number of distinct values before it. */
  lemma {:induction false} DistinctOrder(values: seq<string>, i: nat)
    requires i < |values| && values[i] !in values[..i]
    ensures |Distinct(values[..i])| < |Distinct(values)| && Distinct(values)[|Distinct(values[..i])|] == values[i]
  {
    AddNewHolds([], values[..i]);
    AddNewStep([], values, i);
    AddNewPrefix([], values, i + 1);
  }

  lemma {:induction false} AddNewPrefix(acc: seq<string>, values: seq<string>, i: nat)
    requires i <= |values|
    ensures AddNew(acc, values[..i]) <= AddNew(acc, values)
    decreases |values| - i
  {
    if i == |values| {
      assert values[..i] == values;
    } else {
      AddNewStep(acc, values, i);
      AddNewPrefix(acc, values, i + 1);
    }
  }

  lemma {:induction false} AddNewNoRepeats(acc: seq<string>, values: seq<string>)
    requires NoRepeats(acc)
    ensures NoRepeats(AddNew(acc, values))
    decreases |values|
  {
    if values != [] {
      AddNewNoRepeats(if values[0] in acc then acc else acc + [values[0]], values[1..]);
    }
  }

  /** A list without repetitions is its own list of distinct values. */
  lemma {:induction false} DistinctOfNoRepeats(acc: seq<string>, values: seq<string>)
    requires NoRepeats(acc + values)
    ensures AddNew(acc, values) == acc + values
    decreases |values|
  {
    if values == [] {
      assert acc + values == acc;
    } else {
      assert (acc + values)[|acc|] == values[0];
      assert values[0] !in acc by {
        forall k | 0 <= k < |acc| ensures acc[k] != values[0] {
          assert (acc + values)[k] == acc[k];
        }
      }
      assert acc + values == (acc + [values[0]]) + values[1..];
      DistinctOfNoRepeats(acc + [values[0]], values[1..]);
    }
  }

  // ---------- what the domain expressions mean ----------

  predicate IsHostStart(c: char, wildcard: bool) {
    'a' <= c <= 'z' || (wildcard && c == '*')
  }

  predicate IsHostChar(c: char) {
    'a' <= c <= 'z' || '0' <= c <= '9' || c == '.' || c == '-'
  }

  /** One start character, then host characters, then a dot and the domain. */
  ghost predicate HostUnder(name: string, domain: string, wildcard: bool) {
    && |name| >= |domain| + 2
    && HasSuffix(name, "." + domain)
    && IsHostStart(name[0], wildcard)
    && forall k | 1 <= k < |name| - |domain| - 1 :: IsHostChar(name[k])
  }

  const LETTERS := CharRange('a', 'z')
  const HOST_CHARS := Class([LETTERS, CharRange('0', '9'), CharRange('.', '.'), CharRange('-', '-')])

  function StartClass(wildcard: bool): Atom {
    Class(if wildcard then [CharRange('*', '*'), LETTERS] else [LETTERS])
  }

  lemma ParseStart(rest: string)
    ensures ParsePiece("[a-z]{1}" + rest) == Some((One(StartClass(false)), rest))
  {
    var s := "[a-z]{1}" + rest;
    assert s[..4] == "[a-z";
    IndexOfChar(s, ']', 4);
    assert s[1..4] == "a-z" && "a-z"[3..] == "";
    assert ParseClass("a-z") == Some([LETTERS] + []);
    assert [LETTERS] + [] == StartClass(false).ranges;
    assert s[5..] == "{1}" + rest && s[5..][3..] == rest;
  }

  lemma ParseWildClass()
    ensures ParseClass("*a-z") == Some(StartClass(true).ranges)
  {
    assert "*a-z"[1..] == "a-z" && "a-z"[3..] == "";
    assert ParseClass("a-z") == Some([LETTERS] + []);
    assert ParseClass("*a-z") == Some([CharRange('*', '*')] + ([LETTERS] + []));
    assert [CharRange('*', '*')] + ([LETTERS] + []) == StartClass(true).ranges;
  }

  lemma ParseWildStart(rest: string)
    ensures ParsePiece("[*a-z]{1}" + rest) == Some((One(StartClass(true)), rest))
  {
    var s := "[*a-z" + ("]" + ("{1}" + rest));
    assert s == "[*a-z]{1}" + rest;
    Cut("[*a-z", "]" + ("{1}" + rest));
    IndexOfChar(s, ']', 5);
    assert s[1..5] == s[..5][1..] == "*a-z";
    ParseWildClass();
    Cut("]", "{1}" + rest);
    assert s[6..] == s[5..][1..] == "{1}" + rest;
    Cut("{1}", rest);
  }

  lemma ParseHostChars(rest: string)
    ensures ParsePiece("[a-z0-9.-]*" + rest) == Some((Star(HOST_CHARS), rest))
  {
    var s := "[a-z0-9.-]*" + rest;
    assert s[..9] == "[a-z0-9.-";
    IndexOfChar(s, ']', 9);
    assert s[1..9] == "a-z0-9.-";
    assert "a-z0-9.-"[3..] == "0-9.-" && "0-9.-"[3..] == ".-" && ".-"[1..] == "-" && "-"[1..] == "";
    var dash, dot := CharRange('-', '-'), CharRange('.', '.');
    assert ParseClass("-") == Some([dash] + []);
    assert ParseClass(".-") == Some([dot] + ([dash] + []));
    assert ParseClass("0-9.-") == Some([CharRange('0', '9')] + ([dot] + ([dash] + [])));
    assert ParseClass("a-z0-9.-") == Some([LETTERS] + ([CharRange('0', '9')] + ([dot] + ([dash] + []))));
    assert [LETTERS] + ([CharRange('0', '9')] + ([dot] + ([dash] + [])))
        == [LETTERS, CharRange('0', '9'), dot, dash];
    assert s[10..] == "*" + rest && s[10..][1..] == rest;
  }

  function HostPieces(domain: string, wildcard: bool): seq<Piece> {
    [One(StartClass(wildcard))] + ([Star(HOST_CHARS)] + (Lits("." + domain) + [End]))
  }

  /** An expression that ends in an escaped text has no `$` of its own. */
  lemma AnchoredEscaped(prefix: string, d: string)
    requires OnlyDotsSpecial(d)
    requires prefix != "" && prefix[0] != '^' && prefix[|prefix| - 1] != '$'
    ensures Anchored(prefix + EscapeDots(d)) == "^" + (prefix + EscapeDots(d) + "$")
  {
    var r := prefix + EscapeDots(d);
    var t := "^" + r;
    assert r[0] == prefix[0];
    if d != "" {
      NoDollarAtEnd(d);
      assert t[|t| - 1] == EscapeDots(d)[|EscapeDots(d)| - 1];
    } else {
      assert EscapeDots(d) == "";
      assert t[|t| - 1] == prefix[|prefix| - 1];
    }
    assert t[|t| - 1..] == [t[|t| - 1]];
    assert Anchored(r) == t + "$";
  }

  lemma EscapeDotText(d: string)
    ensures EscapeDots("." + d) == "\\." + EscapeDots(d)
  {
    EscapeStep("." + d);
    assert ("." + d)[1..] == d;
  }

  lemma ParseBegin(rest: string)
    ensures ParsePiece("^" + rest) == Some((Begin, rest))
  {
    assert ("^" + rest)[1..] == rest;
  }

  lemma HostRegexParts(domain: string, wildcard: bool)
    ensures HostRegex(domain, wildcard) + "$"
         == (if wildcard then "[*a-z]{1}" else "[a-z]{1}") + ("[a-z0-9.-]*" + (EscapeDots("." + domain) + "$"))
  {
    EscapeDotText(domain);
    assert WILDCARD_PREFIX == "[*a-z]{1}" + ("[a-z0-9.-]*" + "\\.");
    assert HOST_PREFIX == "[a-z]{1}" + ("[a-z0-9.-]*" + "\\.");
  }

  lemma ParseHost(domain: string, wildcard: bool)
    requires OnlyDotsSpecial(domain)
    ensures Parse(Anchored(HostRegex(domain, wildcard))) == Some([Begin] + HostPieces(domain, wildcard))
  {
    var r := HostRegex(domain, wildcard);
    AnchoredEscaped(if wildcard then WILDCARD_PREFIX else HOST_PREFIX, domain);
    HostRegexParts(domain, wildcard);
    var tail := EscapeDots("." + domain) + "$";
    var afterStart := "[a-z0-9.-]*" + tail;
    ParseEscaped("." + domain);
    ParseHostChars(tail);
    ParseStart(afterStart);
    ParseWildStart(afterStart);
    ParseBegin(r + "$");
    assert Parse(afterStart) == Some([Star(HOST_CHARS)] + (Lits("." + domain) + [End]));
    assert Parse(r + "$") == Some(HostPieces(domain, wildcard));
  }

  lemma {:induction false} NoDollarAtEnd(d: string)
    requires OnlyDotsSpecial(d) && d != ""
    ensures var e := EscapeDots(d); e != "" && e[|e| - 1] != '$'
  {
    EscapeStep(d);
    if |d| > 1 {
      NoDollarAtEnd(d[1..]);
    }
  }

  lemma ClassMeanings(c: char, wildcard: bool)
    ensures Holds(StartClass(wildcard), c) <==> IsHostStart(c, wildcard)
    ensures Holds(HOST_CHARS, c) <==> IsHostChar(c)
  {
    var rs := StartClass(wildcard).ranges;
    assert rs[0].lo <= c <= rs[0].hi || (wildcard && rs[1].lo <= c <= rs[1].hi) <==> IsHostStart(c, wildcard);
    var hs := HOST_CHARS.ranges;
    assert (hs[0].lo <= c <= hs[0].hi || hs[1].lo <= c <= hs[1].hi
            || hs[2].lo <= c <= hs[2].hi || hs[3].lo <= c <= hs[3].hi)
      <==> IsHostChar(c);
  }

  /** A run of one class followed by a text up to the end: the text is the rest's suffix and the
      run is everything before it. */
  lemma RunThenText(a: Atom, text: string, s: string, i: nat)
    requires i <= |s|
    ensures MatchFrom([Star(a)] + (Lits(text) + [End]), s, i)
       <==> HasSuffix(s[i..], text) && AllHold(a, s[i..|s| - |text|])
  {
    var last := Lits(text) + [End];
    StarMeaning(a, last, s, i);
    forall j: nat | i <= j <= |s|
      ensures MatchFrom(last, s, j) <==> HasSuffix(s[i..], text) && j == |s| - |text|
    {
      LitsMeaning(text, s, j);
      assert s[j..] == s[i..][j - i..];
    }
    if HasSuffix(s[i..], text) && AllHold(a, s[i..|s| - |text|]) {
      assert StarReaches(a, last, s, i, |s| - |text|);
    }
  }

  lemma HostUnderParts(domain: string, wildcard: bool, name: string)
    ensures HostUnder(name, domain, wildcard)
       <==> name != "" && IsHostStart(name[0], wildcard) && HasSuffix(name[1..], "." + domain)
            && AllHold(HOST_CHARS, name[1..|name| - (|domain| + 1)])
  {
    var n := |name| - |domain| - 1;
    if n >= 1 {
      RunMeaning(name, n);
      assert name[1..][n - 1..] == name[n..];
    }
  }

  /** One compiled domain expression accepts exactly the hosts under the domain. */
  lemma HostRegexMeaning(domain: string, wildcard: bool, name: string)
    requires OnlyDotsSpecial(domain)
    ensures MatchString(Anchored(HostRegex(domain, wildcard)), name) <==> HostUnder(name, domain, wildcard)
  {
    ParseHost(domain, wildcard);
    SearchAnchored(HostPieces(domain, wildcard), name);
    HostPiecesMeaning(domain, wildcard, name);
  }

  lemma HostPiecesMeaning(domain: string, wildcard: bool, name: string)
    ensures MatchFrom(HostPieces(domain, wildcard), name, 0) <==> HostUnder(name, domain, wildcard)
  {
    HostUnderParts(domain, wildcard, name);
    var rest := [Star(HOST_CHARS)] + (Lits("." + domain) + [End]);
    assert HostPieces(domain, wildcard)[1..] == rest;
    if name != "" {
      ClassMeanings(name[0], wildcard);
      RunThenText(HOST_CHARS, "." + domain, name, 1);
    }
  }

  lemma RunMeaning(name: string, j: nat)
    requires 1 <= j <= |name|
    ensures AllHold(HOST_CHARS, name[1..j]) <==> forall k | 1 <= k < j :: IsHostChar(name[k])
  {
    forall k | 1 <= k < j ensures Holds(HOST_CHARS, name[k]) <==> IsHostChar(name[k]) {
      ClassMeanings(name[k], false);
    }
    if AllHold(HOST_CHARS, name[1..j]) {
      forall k | 1 <= k < j ensures IsHostChar(name[k]) {
        assert name[1..j][k - 1] == name[k];
      }
    }
  }

  /** The compiled domain rules, anchored by the endpoint, accept a name exactly when it is a host
      under one of the listed domains. */
  lemma DomainRulesMeaning(domains: seq<string>, wildcard: bool, name: string)
    requires forall k | 0 <= k < |domains| :: OnlyDotsSpecial(domains[k])
    ensures CheckStringByRegexp(name, Present(AnchoredAll(HostRegexes(domains, wildcard))))
       <==> exists k | 0 <= k < |domains| :: HostUnder(name, domains[k], wildcard)
  {
    forall k | 0 <= k < |domains|
      ensures MatchString(Anchored(HostRegex(domains[k], wildcard)), name) <==> HostUnder(name, domains[k], wildcard)
    {
      HostRegexMeaning(domains[k], wildcard, name);
    }
  }

  /** Allowing wildcards only ever adds names. */
  lemma WildcardsOnlyAdd(domains: seq<string>, name: string)
    requires forall k | 0 <= k < |domains| :: OnlyDotsSpecial(domains[k])
    requires CheckStringByRegexp(name, Present(AnchoredAll(HostRegexes(domains, false))))
    ensures CheckStringByRegexp(name, Present(AnchoredAll(HostRegexes(domains, true))))
  {
    DomainRulesMeaning(domains, false, name);
    DomainRulesMeaning(domains, true, name);
    var k :| 0 <= k < |domains| && HostUnder(name, domains[k], false);
    assert HostUnder(name, domains[k], true);
  }

  // ---------- what the email and URI expressions mean ----------

  lemma AnyRun(s: string)
    ensures AllHold(Any, s) <==> '\n' !in s
  {}

  /** An address passes exactly when it ends in `@` and the domain, with no line break before. */
  lemma EmailRegexMeaning(domain: string, s: string)
    requires OnlyDotsSpecial(domain)
    ensures MatchString(Anchored(EmailRegex(domain)), s)
       <==> HasSuffix(s, "@" + domain) && '\n' !in s[..|s| - |domain| - 1]
  {
    var text := "@" + domain;
    assert EscapeDots(text) == "@" + EscapeDots(domain) by {
      EscapeStep(text);
      assert text[1..] == domain;
    }
    AnchoredEscaped(".*@", domain);
    var r := EmailRegex(domain);
    assert r + "$" == ".*" + (EscapeDots(text) + "$");
    ParseEscaped(text);
    ParseAnyRun(EscapeDots(text) + "$");
    ParseBegin(r + "$");
    assert Parse(r + "$") == Some([Star(Any)] + (Lits(text) + [End]));
    SearchAnchored([Star(Any)] + (Lits(text) + [End]), s);
    RunThenText(Any, text, s, 0);
    assert s[0..] == s;
    if HasSuffix(s, text) {
      assert s[0..|s| - |text|] == s[..|s| - |domain| - 1];
      AnyRun(s[0..|s| - |text|]);
    }
  }

  lemma ParseAnyRun(rest: string)
    ensures ParsePiece(".*" + rest) == Some((Star(Any), rest))
  {
    assert (".*" + rest)[1..] == "*" + rest && ("*" + rest)[1..] == rest;
  }

  /** Protocol names that stand for themselves in an expression. */
  ghost predicate LiteralProtocol(p: string) {
    forall k | 0 <= k < |p| :: !IsMeta(p[k])
  }

  lemma {:induction false} JoinedLiterals(ps: seq<string>)
    requires forall k | 0 <= k < |ps| :: LiteralProtocol(ps[k])
    ensures forall c | c in Join(ps, "|") :: !IsMeta(c) || c == '|'
  {
    if |ps| >= 2 {
      JoinedLiterals(ps[1..]);
    }
  }

  lemma GroupParts(body: string, rest: string)
    ensures var s, k := "(" + body + (")" + rest), |body| + 1;
            && s[k] == ')' && s[..k] == "(" + body && s[1..k] == body && s[k + 1..] == rest
            && forall j | 1 <= j < k :: s[j] == body[j - 1]
  {
    Cut("(" + body, ")" + rest);
    Cut("(", body);
    Cut(")", rest);
    var s, k := "(" + body + (")" + rest), |body| + 1;
    assert s[1..k] == s[..k][1..] && s[k + 1..] == s[k..][1..];
  }

  lemma ParseGroup(body: string, rest: string)
    requires forall k | 0 <= k < |body| :: !IsMeta(body[k]) || body[k] == '|'
    ensures ParsePiece("(" + body + (")" + rest)) == Some((Alt(Split(body, '|')), rest))
  {
    var s := "(" + body + (")" + rest);
    assert ')' !in body by {
      assert IsMeta(')');
    }
    GroupParts(body, rest);
    IndexOfChar(s, ')', |body| + 1);
  }

  ghost predicate UriUnder(s: string, protocol: string, domain: string) {
    && |s| >= |protocol| + 3 + |domain| + 1
    && protocol + "://" <= s
    && HasSuffix(s, "." + domain)
    && '\n' !in s[|protocol| + 3..|s| - |domain| - 1]
  }

  /** A URI passes exactly when it is one of the protocols, then `://`, then anything without a line
      break, then a dot and the domain. */
  lemma UriRegexMeaning(ps: seq<string>, domain: string, s: string)
    requires ps != [] && forall k | 0 <= k < |ps| :: LiteralProtocol(ps[k])
    requires OnlyDotsSpecial(domain)
    ensures MatchString(Anchored(UriRegex(ps, domain)), s) <==> exists k | 0 <= k < |ps| :: UriUnder(s, ps[k], domain)
  {
    ParseUri(ps, domain);
    var afterGroup := UriTail(domain);
    SearchAnchored([Alt(ps)] + afterGroup, s);
    assert ([Alt(ps)] + afterGroup)[1..] == afterGroup;
    assert s[0..] == s;
    forall k | 0 <= k < |ps|
      ensures ps[k] <= s && MatchFrom(afterGroup, s, |ps[k]|) <==> UriUnder(s, ps[k], domain)
    {
      if ps[k] <= s {
        UriTailMeaning(ps[k], domain, s);
      }
    }
  }

  /** What follows the protocol group. */
  function UriTail(domain: string): seq<Piece> {
    Lits("://") + ([Star(Any)] + (Lits("." + domain) + [End]))
  }

  lemma ParseUriTail(domain: string)
    requires OnlyDotsSpecial(domain)
    ensures Parse("://.*\\." + EscapeDots(domain) + "$") == Some(UriTail(domain))
  {
    EscapeDotText(domain);
    ParseEscaped("." + domain);
    var text := EscapeDots("." + domain) + "$";
    var run := [Star(Any)] + (Lits("." + domain) + [End]);
    ParseAnyRun(text);
    assert Parse(".*" + text) == Some(run);
    ParseTextThen("://", ".*" + text, run);
    assert "://" + (".*" + text) == "://.*\\." + EscapeDots(domain) + "$";
  }

  lemma UriRegexParts(ps: seq<string>, domain: string)
    ensures UriRegex(ps, domain) + "$" == "(" + Join(ps, "|") + (")" + ("://.*\\." + EscapeDots(domain) + "$"))
  {}

  lemma ParseUri(ps: seq<string>, domain: string)
    requires ps != [] && forall k | 0 <= k < |ps| :: LiteralProtocol(ps[k])
    requires OnlyDotsSpecial(domain)
    ensures Parse(Anchored(UriRegex(ps, domain))) == Some([Begin] + ([Alt(ps)] + UriTail(domain)))
  {
    var body, tail := Join(ps, "|"), "://.*\\." + EscapeDots(domain) + "$";
    var prefix := "(" + body + ")://.*\\.";
    assert prefix[|prefix| - 1] == '.';
    AnchoredEscaped(prefix, domain);
    assert UriRegex(ps, domain) == prefix + EscapeDots(domain);
    UriRegexParts(ps, domain);
    JoinedLiterals(ps);
    SplitJoin(ps, '|');
    ParseUriTail(domain);
    ParseGroup(body, tail);
    ParseBegin(UriRegex(ps, domain) + "$");
  }

  lemma UriTailMeaning(protocol: string, domain: string, s: string)
    requires protocol <= s
    ensures MatchFrom(UriTail(domain), s, |protocol|) <==> UriUnder(s, protocol, domain)
  {
    var n := |protocol|;
    var run := [Star(Any)] + (Lits("." + domain) + [End]);
    LitsThen("://", run, s, n);
    assert protocol + "://" <= s <==> "://" <= s[n..];
    if "://" <= s[n..] {
      RunThenText(Any, "." + domain, s, n + 3);
      if |s| >= n + 3 + |domain| + 1 {
        AnyRun(s[n + 3..|s| - |domain| - 1]);
        assert s[n + 3..][|s| - (n + 3) - (|domain| + 1)..] == s[|s| - (|domain| + 1)..];
      }
    }
  }
}

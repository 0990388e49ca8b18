/** The fragment of Go's `regexp` syntax that the policy compiler emits: literal characters, escaped
    punctuation, the dot, bracket classes, `*`, `{1}`, the anchors, and a group of alternative
    words. An expression outside the fragment parses to None. */
module Regex {
  import opened Wrappers
  import opened Seqs
  import opened Text

  datatype CharRange = CharRange(lo: char, hi: char)

  datatype Atom = Lit(c: char) | Any | Class(ranges: seq<CharRange>)

  datatype Piece = One(atom: Atom) | Star(atom: Atom) | Alt(words: seq<string>) | Begin | End

  // ---------- meaning ----------

  predicate Holds(a: Atom, c: char) {
    match a
    case Lit(x) => c == x
    case Any => c != '\n'
    case Class(rs) => exists k | 0 <= k < |rs| :: rs[k].lo <= c <= rs[k].hi
  }

  /** The pieces match some stretch of `s` that starts at `i`. */
  predicate MatchFrom(ps: seq<Piece>, s: string, i: nat)
    requires i <= |s|
    decreases |ps|, |s| - i
  {
    if ps == [] then true
    else
      match ps[0]
      case One(a) => i < |s| && Holds(a, s[i]) && MatchFrom(ps[1..], s, i + 1)
      case Star(a) => MatchFrom(ps[1..], s, i) || (i < |s| && Holds(a, s[i]) && MatchFrom(ps, s, i + 1))
      case Alt(ws) => exists k | 0 <= k < |ws| :: ws[k] <= s[i..] && MatchFrom(ps[1..], s, i + |ws[k]|)
      case Begin => i == 0 && MatchFrom(ps[1..], s, i)
      case End => i == |s| && MatchFrom(ps[1..], s, i)
  }

  predicate Search(ps: seq<Piece>, s: string) {
    exists i | 0 <= i <= |s| :: MatchFrom(ps, s, i)
  }

  // ---------- syntax ----------

  predicate IsMeta(c: char) {
    c in {'\\', '.', '+', '*', '?', '(', ')', '|', '[', ']', '{', '}', '^', '$'}
  }

  function ParseClass(body: string): Option<seq<CharRange>> {
    if body == "" then Some([])
    else if body[0] in {'^', '\\', '['} then None
    else if |body| >= 3 && body[1] == '-' then
      if body[2] in {'^', '\\', '['} || body[2] < body[0] then None
      else
        match ParseClass(body[3..])
        case None => None
        case Some(rs) => Some([CharRange(body[0], body[2])] + rs)
    else
      match ParseClass(body[1..])
      case None => None
      case Some(rs) => Some([CharRange(body[0], body[0])] + rs)
  }

  function ParseAtom(s: string): (r: Option<(Atom, string)>)
    requires s != ""
    ensures r.Some? ==> |r.value.1| < |s|
  {
    if s[0] == '\\' then
      if |s| >= 2 && IsMeta(s[1]) then Some((Lit(s[1]), s[2..])) else None
    else if s[0] == '.' then Some((Any, s[1..]))
    else if s[0] == '[' then
      var k := Index(s, "]");
      if k <= 1 then None
      else
        match ParseClass(s[1..k])
        case None => None
        case Some(rs) => Some((Class(rs), s[k + 1..]))
    else if IsMeta(s[0]) then None
    else Some((Lit(s[0]), s[1..]))
  }

  function ParsePiece(s: string): (r: Option<(Piece, string)>)
    requires s != ""
    ensures r.Some? ==> |r.value.1| < |s|
  {
    if s[0] == '^' then Some((Begin, s[1..]))
    else if s[0] == '$' then Some((End, s[1..]))
    else if s[0] == '(' then
      var k := Index(s, ")");
      if k < 1 || exists j | 1 <= j < k :: IsMeta(s[j]) && s[j] != '|' then None
      else Some((Alt(Split(s[1..k], '|')), s[k + 1..]))
    else
      match ParseAtom(s)
      case None => None
      case Some((a, rest)) =>
        if rest != "" && rest[0] == '*' then Some((Star(a), rest[1..]))
        else if "{1}" <= rest then Some((One(a), rest[3..]))
        else if rest != "" && rest[0] in {'+', '?', '{'} then None
        else Some((One(a), rest))
  }

  function Parse(s: string): Option<seq<Piece>> {
    if s == "" then Some([])
    else
      match ParsePiece(s)
      case None => None
      case Some((p, rest)) =>
        match Parse(rest)
        case None => None
        case Some(ps) => Some([p] + ps)
  }

  /** `regexp.MatchString`: an unanchored search; an expression that does not parse matches nothing
      (the callers treat an error and a mismatch alike). */
  predicate MatchString(r: string, s: string) {
    match Parse(r)
    case None => false
    case Some(ps) => Search(ps, s)
  }

  // ---------- laws of matching ----------

  ghost predicate AllHold(a: Atom, s: string) {
    forall k | 0 <= k < |s| :: Holds(a, s[k])
  }

  ghost predicate StarReaches(a: Atom, rest: seq<Piece>, s: string, i: nat, j: nat) {
    i <= j <= |s| && AllHold(a, s[i..j]) && MatchFrom(rest, s, j)
  }

  /** A starred atom matches by consuming some run of characters that all satisfy it. */
  lemma {:induction false} StarMeaning(a: Atom, rest: seq<Piece>, s: string, i: nat)
    requires i <= |s|
    ensures MatchFrom([Star(a)] + rest, s, i) <==> exists j: nat :: StarReaches(a, rest, s, i, j)
    decreases |s| - i
  {
    var ps := [Star(a)] + rest;
    assert ps[1..] == rest;
    if MatchFrom(rest, s, i) {
      assert StarReaches(a, rest, s, i, i);
    } else if i < |s| && Holds(a, s[i]) {
      StarMeaning(a, rest, s, i + 1);
      if MatchFrom(ps, s, i + 1) {
        var j: nat :| StarReaches(a, rest, s, i + 1, j);
        assert s[i..j] == [s[i]] + s[i + 1..j];
        assert StarReaches(a, rest, s, i, j);
      }
      if j: nat :| StarReaches(a, rest, s, i, j) {
        assert s[i + 1..j] == s[i..j][1..];
        assert StarReaches(a, rest, s, i + 1, j);
      }
    } else {
      if j: nat :| StarReaches(a, rest, s, i, j) {
        assert j > i;
        assert s[i..j][0] == s[i];
      }
    }
  }

  /** Pieces that begin with `^` can only match from the start. */
  lemma SearchAnchored(rest: seq<Piece>, s: string)
    ensures Search([Begin] + rest, s) <==> MatchFrom(rest, s, 0)
  {
    assert ([Begin] + rest)[1..] == rest;
    if MatchFrom(rest, s, 0) {
      assert MatchFrom([Begin] + rest, s, 0);
    }
  }

  // ---------- literal text ----------

  /** The pieces of a text whose dots were escaped: every character stands for itself. */
  function Lits(d: string): seq<Piece> {
    seq(|d|, k requires 0 <= k < |d| => One(Lit(d[k])))
  }

  /** The pieces of the same text with its dots left as they are: a dot stands for any character. */
  function RawPieces(v: string): seq<Piece> {
    seq(|v|, k requires 0 <= k < |v| => One(if v[k] == '.' then Any else Lit(v[k])))
  }

  /** Letters, digits, hyphens, spaces and so on: nothing with a special meaning but the dot. */
  predicate OnlyDotsSpecial(s: string) {
    forall k | 0 <= k < |s| :: s[k] == '.' || !IsMeta(s[k])
  }

  /** Literal text matches by being there. */
  lemma {:induction false} LitsThen(d: string, rest: seq<Piece>, s: string, i: nat)
    requires i <= |s|
    ensures MatchFrom(Lits(d) + rest, s, i) <==> d <= s[i..] && MatchFrom(rest, s, i + |d|)
    decreases |d|
  {
    var ps := Lits(d) + rest;
    if d == "" {
      assert ps == rest;
    } else {
      assert ps[1..] == Lits(d[1..]) + rest;
      if i < |s| {
        LitsThen(d[1..], rest, s, i + 1);
        assert s[i..] == [s[i]] + s[i + 1..];
        assert d == [d[0]] + d[1..];
      }
    }
  }

  lemma LitsMeaning(d: string, s: string, i: nat)
    requires i <= |s|
    ensures MatchFrom(Lits(d) + [End], s, i) <==> s[i..] == d
  {
    LitsThen(d, [End], s, i);
    assert [End][1..] == [];
    if d <= s[i..] && i + |d| == |s| {
      assert s[i..] == d;
    }
  }

  /** The same text, but that a dot stands for any character other than a line break. */
  predicate UpToDots(v: string, s: string) {
    |v| == |s| && forall k | 0 <= k < |v| :: if v[k] == '.' then s[k] != '\n' else s[k] == v[k]
  }

  lemma {:induction false} RawMeaning(v: string, s: string, i: nat)
    requires i <= |s|
    ensures MatchFrom(RawPieces(v) + [End], s, i) <==> UpToDots(v, s[i..])
    decreases |v|
  {
    var ps := RawPieces(v) + [End];
    if v == "" {
      assert ps[1..] == [];
    } else {
      assert ps[1..] == RawPieces(v[1..]) + [End];
      if i < |s| {
        RawMeaning(v[1..], s, i + 1);
        assert s[i..][1..] == s[i + 1..];
        UpToDotsStep(v, s[i..]);
      }
    }
  }

  lemma UpToDotsStep(v: string, s: string)
    requires v != "" && s != ""
    ensures UpToDots(v, s) <==> (if v[0] == '.' then s[0] != '\n' else s[0] == v[0]) && UpToDots(v[1..], s[1..])
  {
    assert forall k | 0 < k < |v| :: v[k] == v[1..][k - 1];
    assert forall k | 0 < k < |s| :: s[k] == s[1..][k - 1];
  }

  lemma ParseEnd()
    ensures Parse("$") == Some([End])
  {
    assert "$"[1..] == "";
    assert ParsePiece("$") == Some((End, ""));
    assert [End] + [] == [End];
  }

  lemma ParsePlainChar(c: char, rest: string)
    requires !IsMeta(c)
    requires rest != "" && rest[0] !in {'*', '+', '?', '{'}
    ensures ParsePiece([c] + rest) == Some((One(Lit(c)), rest))
  {
    assert ([c] + rest)[1..] == rest;
  }

  lemma ParseStep(s: string, p: Piece, rest: string, ps: seq<Piece>)
    requires s != "" && ParsePiece(s) == Some((p, rest)) && Parse(rest) == Some(ps)
    ensures Parse(s) == Some([p] + ps)
  {}

  /** Text without special characters parses to its literals. */
  lemma {:induction false} ParseTextThen(text: string, rest: string, ps: seq<Piece>)
    requires forall k | 0 <= k < |text| :: !IsMeta(text[k])
    requires rest != "" && rest[0] !in {'*', '+', '?', '{'}
    requires Parse(rest) == Some(ps)
    ensures Parse(text + rest) == Some(Lits(text) + ps)
  {
    if text == "" {
      assert text + rest == rest && Lits(text) + ps == ps;
    } else {
      ParseTextThen(text[1..], rest, ps);
      var tail := text[1..] + rest;
      TextHead(text[1..], rest);
      ParseOneMore(text[0], tail, Lits(text[1..]) + ps);
      HeadTail(text);
      Assoc([text[0]], text[1..], rest);
      LitsStep(text, ps);
    }
  }

  lemma TextHead(text: string, rest: string)
    requires forall k | 0 <= k < |text| :: !IsMeta(text[k])
    requires rest != "" && rest[0] !in {'*', '+', '?', '{'}
    ensures var s := text + rest; s != "" && s[0] !in {'*', '+', '?', '{'}
  {
    if text != "" {
      assert (text + rest)[0] == text[0];
    }
  }

  lemma ParseOneMore(c: char, rest: string, ps: seq<Piece>)
    requires !IsMeta(c) && rest != "" && rest[0] !in {'*', '+', '?', '{'}
    requires Parse(rest) == Some(ps)
    ensures Parse([c] + rest) == Some([One(Lit(c))] + ps)
  {
    ParsePlainChar(c, rest);
    ParseStep([c] + rest, One(Lit(c)), rest, ps);
  }

  lemma LitsStep(text: string, ps: seq<Piece>)
    requires text != ""
    ensures Lits(text) + ps == [One(Lit(text[0]))] + (Lits(text[1..]) + ps)
  {
    assert Lits(text) == [One(Lit(text[0]))] + Lits(text[1..]);
    Assoc([One(Lit(text[0]))], Lits(text[1..]), ps);
  }

  lemma {:induction false} ParseEscaped(d: string)
    requires OnlyDotsSpecial(d)
    ensures Parse(EscapeDots(d) + "$") == Some(Lits(d) + [End])
  {
    if d == "" {
      ParseEnd();
      assert EscapeDots(d) + "$" == "$";
      assert Lits(d) + [End] == [End];
    } else {
      EscapeStep(d);
      ParseEscaped(d[1..]);
      var rest := EscapeDots(d[1..]) + "$";
      EscapedHead(d[1..]);
      if d[0] == '.' {
        Assoc(['\\', '.'], EscapeDots(d[1..]), "$");
        Cut(['\\', '.'], rest);
        assert ParsePiece(['\\', '.'] + rest) == Some((One(Lit('.')), rest));
      } else {
        Assoc([d[0]], EscapeDots(d[1..]), "$");
        ParsePlainChar(d[0], rest);
      }
      ParseStep(EscapeDots(d) + "$", One(Lit(d[0])), rest, Lits(d[1..]) + [End]);
      LitsStep(d, [End]);
    }
  }

  lemma EscapedHead(d: string)
    requires OnlyDotsSpecial(d)
    ensures var e := EscapeDots(d) + "$"; e != "" && e[0] !in {'*', '+', '?', '{'}
  {
    if d != "" {
      EscapeStep(d);
    }
  }

  lemma {:induction false} ParseRaw(v: string)
    requires OnlyDotsSpecial(v)
    ensures Parse(v + "$") == Some(RawPieces(v) + [End])
  {
    if v == "" {
      ParseEnd();
      assert v + "$" == "$";
      assert RawPieces(v) + [End] == [End];
    } else {
      ParseRaw(v[1..]);
      var rest, first := v[1..] + "$", One(if v[0] == '.' then Any else Lit(v[0]));
      assert v + "$" == [v[0]] + rest;
      ParseRawChar(v[0], rest);
      ParseStep([v[0]] + rest, first, rest, RawPieces(v[1..]) + [End]);
      assert RawPieces(v) == [first] + RawPieces(v[1..]);
      Assoc([first], RawPieces(v[1..]), [End]);
    }
  }

  lemma ParseRawChar(c: char, rest: string)
    requires c == '.' || !IsMeta(c)
    requires rest != "" && rest[0] !in {'*', '+', '?', '{'}
    ensures ParsePiece([c] + rest) == Some((One(if c == '.' then Any else Lit(c)), rest))
  {
    Cut([c], rest);
  }

  /** An anchored expression with no special character but the dot matches exactly what is the same up
      to dots. */
  lemma AnchoredRawMeaning(v: string, s: string)
    requires OnlyDotsSpecial(v)
    ensures MatchString("^" + v + "$", s) <==> UpToDots(v, s)
  {
    var r := "^" + v + "$";
    assert r[1..] == v + "$";
    ParseRaw(v);
    assert Parse(r) == Some([Begin] + (RawPieces(v) + [End]));
    assert s[0..] == s;
    RawMeaning(v, s, 0);
    SearchAnchored(RawPieces(v) + [End], s);
  }

  /** In particular its own text. */
  lemma AnchoredRawMatchesItself(v: string)
    requires OnlyDotsSpecial(v)
    ensures MatchString("^" + v + "$", v)
  {
    AnchoredRawMeaning(v, v);
  }

  /** The expression that allows everything matches exactly the texts without a line break. */
  lemma AnchoredDotStar(s: string)
    ensures MatchString("^.*$", s) <==> '\n' !in s
  {
    var r := "^.*$";
    assert r[1..] == ".*$" && r[1..][1..] == "*$" && r[1..][1..][1..] == "$";
    ParseEnd();
    assert Parse(".*$") == Some([Star(Any)] + [End]);
    assert Parse(r) == Some([Begin] + ([Star(Any)] + [End]));
    SearchAnchored([Star(Any)] + [End], s);
    StarMeaning(Any, [End], s, 0);
    if '\n' !in s {
      assert s[0..|s|] == s;
      assert [End][1..] == [];
      assert StarReaches(Any, [End], s, 0, |s|);
    }
    forall j: nat | StarReaches(Any, [End], s, 0, j) ensures '\n' !in s {
      assert s[0..j] == s;
    }
  }
}

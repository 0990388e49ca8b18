/** What a value of a subject list means once it is anchored and used as an expression. */
module PolicyValues {
  import opened Wrappers
  import opened Seqs
  import opened Text
  import opened Regex
  import opened PolicyReader
  import opened PolicyNames

  // ---------- values ----------

  /** The group a value begins with closes, and holds words without special characters. */
  predicate BeginsWithGroup(e: string) {
    e != "" && e[0] == '(' &&
    var k := Index(e, ")");
    k >= 1 && forall j | 1 <= j < k :: !IsMeta(e[j]) || e[j] == '|'
  }

  function GroupWords(e: string): seq<string>
    requires BeginsWithGroup(e)
  {
    Split(e[1..Index(e, ")")], '|')
  }

  function AfterGroup(e: string): (r: string)
    requires BeginsWithGroup(e)
    ensures |r| < |e|
  {
    var k := Index(e, ")");
    assert OccursAt(e, ")", k);
    e[k + 1..]
  }

  /** Values of plain characters, dots, `.*` and parenthesised words, in any order. */
  predicate Legible(e: string)
    decreases |e|
  {
    if e == "" then true
    else if e[0] == '(' then BeginsWithGroup(e) && Legible(AfterGroup(e))
    else if ".*" <= e then Legible(e[2..])
    else (e[0] == '.' || !IsMeta(e[0])) && Legible(e[1..])
  }

  /** The text `s` is one the value stands for: a dot stands for any character other than a line break,
      `.*` for any run of them, a group for one of its words, and anything else for itself. */
  predicate StandsFor(e: string, s: string)
    requires Legible(e)
    decreases |e|
  {
    if e == "" then s == ""
    else if e[0] == '(' then
      exists k | 0 <= k < |GroupWords(e)| :: GroupWords(e)[k] <= s && StandsFor(AfterGroup(e), s[|GroupWords(e)[k]|..])
    else if ".*" <= e then exists j | 0 <= j <= |s| :: '\n' !in s[..j] && StandsFor(e[2..], s[j..])
    else s != "" && (if e[0] == '.' then s[0] != '\n' else s[0] == e[0]) && StandsFor(e[1..], s[1..])
  }

  // ---------- as expressions ----------

  function PiecesOf(e: string): seq<Piece>
    requires Legible(e)
    decreases |e|
  {
    if e == "" then []
    else if e[0] == '(' then [Alt(GroupWords(e))] + PiecesOf(AfterGroup(e))
    else if ".*" <= e then [Star(Any)] + PiecesOf(e[2..])
    else [One(if e[0] == '.' then Any else Lit(e[0]))] + PiecesOf(e[1..])
  }

  lemma LegibleHead(e: string)
    requires Legible(e)
    ensures (e + "$")[0] !in {'*', '+', '?', '{', '^'}
  {
    if e != "" {
      assert (e + "$")[0] == e[0];
    }
  }

  lemma GroupText(e: string)
    requires BeginsWithGroup(e)
    ensures var body := e[1..Index(e, ")")];
            && e + "$" == "(" + body + (")" + (AfterGroup(e) + "$"))
            && forall k | 0 <= k < |body| :: !IsMeta(body[k]) || body[k] == '|'
  {
    var k := Index(e, ")");
    assert OccursAt(e, ")", k);
    assert e[k] == e[k..k + 1][0] == ')';
    assert e == "(" + e[1..k] + ")" + e[k + 1..];
    Regroup(e[1..k], e[k + 1..]);
  }

  lemma Regroup(body: string, after: string)
    ensures "(" + body + ")" + after + "$" == "(" + body + (")" + (after + "$"))
  {}

  lemma {:induction false} ParseLegible(e: string)
    requires Legible(e)
    ensures Parse(e + "$") == Some(PiecesOf(e) + [End])
    decreases |e|
  {
    if e == "" {
      ParseEnd();
      Empty("$");
      Empty([End]);
    } else if e[0] == '(' {
      var rest := AfterGroup(e);
      ParseLegible(rest);
      GroupText(e);
      ParseGroup(e[1..Index(e, ")")], rest + "$");
      ParseStep(e + "$", Alt(GroupWords(e)), rest + "$", PiecesOf(rest) + [End]);
      Assoc([Alt(GroupWords(e))], PiecesOf(rest), [End]);
    } else if ".*" <= e {
      var rest := e[2..];
      ParseLegible(rest);
      assert e + "$" == ".*" + (rest + "$");
      ParseAnyRun(rest + "$");
      ParseStep(e + "$", Star(Any), rest + "$", PiecesOf(rest) + [End]);
      Assoc([Star(Any)], PiecesOf(rest), [End]);
    } else {
      ParseLegible(e[1..]);
      ParseLegibleChar(e);
    }
  }

  lemma ParseLegibleChar(e: string)
    requires Legible(e) && e != "" && e[0] != '(' && !(".*" <= e)
    requires Parse(e[1..] + "$") == Some(PiecesOf(e[1..]) + [End])
    ensures Parse(e + "$") == Some(PiecesOf(e) + [End])
  {
    var rest, first := e[1..] + "$", One(if e[0] == '.' then Any else Lit(e[0]));
    LegibleHead(e[1..]);
    ParseRawChar(e[0], rest);
    assert [e[0]] + rest == e + "$";
    ParseStep(e + "$", first, rest, PiecesOf(e[1..]) + [End]);
    Assoc([first], PiecesOf(e[1..]), [End]);
  }

  lemma {:induction false} PiecesMeaning(e: string, s: string, i: nat)
    requires Legible(e) && i <= |s|
    ensures MatchFrom(PiecesOf(e) + [End], s, i) <==> StandsFor(e, s[i..])
    decreases |e|
  {
    var ps := PiecesOf(e) + [End];
    if e == "" {
      Empty([End]);
      assert ps[1..] == [];
    } else if e[0] == '(' {
      GroupPieces(e, s, i);
    } else if ".*" <= e {
      RunPieces(e, s, i);
    } else {
      Cut([ps[0]], PiecesOf(e[1..]) + [End]);
      Assoc([ps[0]], PiecesOf(e[1..]), [End]);
      if i < |s| {
        PiecesMeaning(e[1..], s, i + 1);
        assert s[i..][1..] == s[i + 1..];
      }
    }
  }

  lemma GroupPieces(e: string, s: string, i: nat)
    requires Legible(e) && i <= |s| && BeginsWithGroup(e)
    ensures MatchFrom(PiecesOf(e) + [End], s, i) <==> StandsFor(e, s[i..])
    decreases |e|, 0
  {
    var words, rest, tail := GroupWords(e), PiecesOf(AfterGroup(e)) + [End], s[i..];
    Assoc([Alt(words)], PiecesOf(AfterGroup(e)), [End]);
    AltMeaning(words, rest, s, i);
    forall k | 0 <= k < |words| && words[k] <= tail
      ensures MatchFrom(rest, s, i + |words[k]|) <==> StandsFor(AfterGroup(e), tail[|words[k]|..])
    {
      PiecesMeaning(AfterGroup(e), s, i + |words[k]|);
      assert tail[|words[k]|..] == s[i + |words[k]|..];
    }
    GroupMeaning(e, tail);
  }

  lemma GroupMeaning(e: string, s: string)
    requires Legible(e) && BeginsWithGroup(e)
    ensures var words := GroupWords(e);
            StandsFor(e, s) <==>
              exists k | 0 <= k < |words| :: words[k] <= s && StandsFor(AfterGroup(e), s[|words[k]|..])
  {}

  lemma AltMeaning(words: seq<string>, rest: seq<Piece>, s: string, i: nat)
    requires i <= |s|
    ensures MatchFrom([Alt(words)] + rest, s, i)
       <==> exists k | 0 <= k < |words| :: words[k] <= s[i..] && MatchFrom(rest, s, i + |words[k]|)
  {
    Cut([Alt(words)], rest);
  }

  lemma RunPieces(e: string, s: string, i: nat)
    requires Legible(e) && i <= |s| && ".*" <= e
    ensures MatchFrom(PiecesOf(e) + [End], s, i) <==> StandsFor(e, s[i..])
    decreases |e|, 0
  {
    var rest, tail := PiecesOf(e[2..]) + [End], s[i..];
    Assoc([Star(Any)], PiecesOf(e[2..]), [End]);
    StarMeaning(Any, rest, s, i);
    RunMeaning(e, tail);
    forall j: nat | i <= j <= |s| ensures StarReaches(Any, rest, s, i, j) <==> RunReaches(e, tail, j - i) {
      PiecesMeaning(e[2..], s, j);
      assert tail[..j - i] == s[i..j] && tail[j - i..] == s[j..];
      AnyRun(s[i..j]);
    }
    if k: nat :| RunReaches(e, tail, k) {
      assert StarReaches(Any, rest, s, i, i + k);
    }
    if j: nat :| StarReaches(Any, rest, s, i, j) {
      assert RunReaches(e, tail, j - i);
    }
  }

  /** `.*` takes the first j characters, and the rest of the value stands for the rest of the text. */
  predicate RunReaches(e: string, s: string, j: nat)
    requires Legible(e) && ".*" <= e
  {
    j <= |s| && '\n' !in s[..j] && StandsFor(e[2..], s[j..])
  }

  lemma RunMeaning(e: string, s: string)
    requires Legible(e) && ".*" <= e
    ensures StandsFor(e, s) <==> exists j: nat :: RunReaches(e, s, j)
  {
    if j: nat :| RunReaches(e, s, j) {
      assert '\n' !in s[..j] && StandsFor(e[2..], s[j..]);
    }
    if StandsFor(e, s) {
      var j :| 0 <= j <= |s| && '\n' !in s[..j] && StandsFor(e[2..], s[j..]);
      assert RunReaches(e, s, j);
    }
  }

  lemma AnchoredLegible(e: string)
    requires Legible(e)
    ensures Anchored(e) == "^" + (e + "$")
  {
    LegibleHead(e);
    NoDollar(e);
    if e != "" {
      assert (e + "$")[0] == e[0];
    }
    var t := "^" + e;
    assert t[|t| - 1..] == [t[|t| - 1]];
    Assoc("^", e, "$");
  }

  lemma {:induction false} NoDollar(e: string)
    requires Legible(e)
    ensures '$' !in e
    decreases |e|
  {
    if e != "" {
      assert IsMeta('$');
      if e[0] == '(' {
        var k := Index(e, ")");
        assert OccursAt(e, ")", k);
        assert e[k] == e[k..k + 1][0] == ')';
        NoDollar(AfterGroup(e));
        assert e == e[..k + 1] + AfterGroup(e);
      } else if ".*" <= e {
        NoDollar(e[2..]);
        assert e == ".*" + e[2..];
      } else {
        NoDollar(e[1..]);
        HeadTail(e);
      }
    }
  }

  /** Anchored and used as an expression, a value accepts exactly the texts it stands for. */
  lemma ValueMeaning(e: string, s: string)
    requires Legible(e)
    ensures MatchString(Anchored(e), s) <==> StandsFor(e, s)
  {
    AnchoredLegible(e);
    ParseLegible(e);
    ParseBegin(e + "$");
    ParseStep("^" + (e + "$"), Begin, e + "$", PiecesOf(e) + [End]);
    SearchAnchored(PiecesOf(e) + [End], s);
    assert s[0..] == s;
    PiecesMeaning(e, s, 0);
  }

  // ---------- which values stand for themselves ----------

  /** A value of literals and dots stands for what is the same up to dots. */
  lemma {:induction false} PlainValue(e: string, s: string)
    requires OnlyDotsSpecial(e)
    ensures Legible(e) && (StandsFor(e, s) <==> UpToDots(e, s))
    decreases |e|
  {
    if e != "" {
      assert e[0] == '.' || !IsMeta(e[0]);
      assert ".*" <= e ==> e[1] == '*' && IsMeta(e[1]);
      PlainValue(e[1..], if s != "" then s[1..] else s);
      if s != "" {
        UpToDotsStep(e, s);
      }
    }
  }

  /** The value that allows everything stands for the texts without a line break. */
  lemma OpenValue(s: string)
    ensures Legible(".*") && (StandsFor(".*", s) <==> '\n' !in s)
  {
    assert ".*"[2..] == "";
    if '\n' !in s {
      assert s[..|s|] == s && s[|s|..] == "";
    }
    if StandsFor(".*", s) {
      var j :| 0 <= j <= |s| && '\n' !in s[..j] && StandsFor(".*"[2..], s[j..]);
      assert s[..j] == s;
    }
  }

  lemma PlainHead(c: char, e: string, s: string)
    requires !IsMeta(c) && Legible(e)
    ensures Legible([c] + e) && (StandsFor([c] + e, s) <==> s != "" && s[0] == c && StandsFor(e, s[1..]))
  {
    assert IsMeta('(') && IsMeta('.');
    Cut([c], e);
  }

  lemma RunHead(e: string, s: string)
    requires Legible(e)
    ensures Legible(".*" + e)
    ensures StandsFor(".*" + e, s) <==> exists j | 0 <= j <= |s| :: '\n' !in s[..j] && StandsFor(e, s[j..])
  {
    Cut(".*", e);
    assert (".*" + e)[0] == '.';
  }

  /** Without a group a value stands for itself. */
  lemma {:induction false} StandsForItself(e: string)
    requires Legible(e) && '(' !in e
    ensures StandsFor(e, e)
    decreases |e|
  {
    if ".*" <= e {
      StandsForItself(e[2..]);
      assert e[..2] == ".*";
    } else if e != "" {
      assert forall c | c in e[1..] :: c in e;
      StandsForItself(e[1..]);
    }
  }

  lemma WordsAreShorter(e: string, k: nat)
    requires BeginsWithGroup(e) && k < |GroupWords(e)|
    ensures |GroupWords(e)[k]| + |AfterGroup(e)| + 2 <= |e|
  {
    var n := Index(e, ")");
    assert OccursAt(e, ")", n);
    PartIsShorter(e[1..n], '|', k);
  }

  lemma {:induction false} PartIsShorter(s: string, sep: char, k: nat)
    requires k < |Split(s, sep)|
    ensures |Split(s, sep)[k]| <= |s|
  {
    if s != "" {
      HeadTail(s);
      SplitOne(s[0], s[1..], sep);
      if s[0] == sep {
        if k > 0 {
          PartIsShorter(s[1..], sep, k - 1);
        }
      } else {
        PartIsShorter(s[1..], sep, k);
      }
    }
  }

  lemma RunHasStar(e: string)
    requires ".*" <= e
    ensures '*' in e
  {
    assert e[1] == '*';
  }

  /** A value without `.*` stands for texts no longer than itself, and for shorter ones if it has a
      group. */
  lemma {:induction false} StandsForNoLonger(e: string, s: string)
    requires Legible(e) && '*' !in e && StandsFor(e, s)
    ensures |s| <= |e| && ('(' in e ==> |s| < |e|)
    decreases |e|
  {
    if e != "" {
      if e[0] == '(' {
        var words, rest := GroupWords(e), AfterGroup(e);
        var k :| 0 <= k < |words| && words[k] <= s && StandsFor(rest, s[|words[k]|..]);
        WordsAreShorter(e, k);
        assert forall c | c in rest :: c in e;
        StandsForNoLonger(rest, s[|words[k]|..]);
      } else {
        if ".*" <= e {
          RunHasStar(e);
        }
        assert forall c | c in e[1..] :: c in e;
        StandsForNoLonger(e[1..], s[1..]);
        HeadTail(e);
      }
    }
  }

  /** So a value without `.*` stands for itself exactly if it has no group. */
  lemma StandsForItselfIff(e: string)
    requires Legible(e) && '*' !in e
    ensures StandsFor(e, e) <==> '(' !in e
  {
    if '(' !in e {
      StandsForItself(e);
    } else if StandsFor(e, e) {
      StandsForNoLonger(e, e);
    }
  }

  /** A plain text with a parenthesised word at its end stands just for the text without the
      parentheses. */
  lemma {:induction false} GroupAtEnd(a: string, w: string, s: string)
    requires forall k | 0 <= k < |a| :: !IsMeta(a[k])
    requires forall k | 0 <= k < |w| :: !IsMeta(w[k])
    ensures var e := a + "(" + w + ")"; Legible(e) && (StandsFor(e, s) <==> s == a + w)
    decreases |a|
  {
    var e := a + "(" + w + ")";
    if a == "" {
      LoneGroup(w);
      assert e == "(" + w + (")" + "");
      if w <= s && s[|w|..] == "" {
        TakeDrop(s, |w|);
      }
    } else {
      var t := if s != "" then s[1..] else s;
      GroupAtEnd(a[1..], w, t);
      assert e[0] == a[0] && e[1..] == a[1..] + "(" + w + ")";
      assert !IsMeta(a[0]) && IsMeta('(') && IsMeta('.');
      if s != "" {
        assert s == a + w <==> s[0] == a[0] && t == a[1..] + w by {
          HeadTail(s);
          HeadTail(a);
          Assoc([a[0]], a[1..], w);
          Cut([a[0]], a[1..] + w);
        }
      }
    }
  }

  lemma LoneGroup(w: string)
    requires forall k | 0 <= k < |w| :: !IsMeta(w[k])
    ensures var e := "(" + w + (")" + ""); BeginsWithGroup(e) && GroupWords(e) == [w] && AfterGroup(e) == ""
  {
    GroupParts(w, "");
    assert IsMeta(')') && IsMeta('|');
    assert ')' !in w && '|' !in w;
    IndexOfChar("(" + w + (")" + ""), ')', |w| + 1);
    SplitNoSep(w, '|');
  }
}

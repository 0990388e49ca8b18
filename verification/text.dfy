/** The string operations of Go's `strings` package that the modelled code relies on. */
module Text {
  import opened Seqs

  // ---------- prefixes and suffixes ----------

  predicate HasSuffix(s: string, suffix: string) {
    |suffix| <= |s| && s[|s| - |suffix|..] == suffix
  }

  function TrimPrefix(s: string, prefix: string): string {
    if prefix <= s then s[|prefix|..] else s
  }

  lemma TrimOwnPrefix(prefix: string, s: string)
    ensures TrimPrefix(prefix + s, prefix) == s
  {
    assert prefix <= prefix + s;
    assert (prefix + s)[|prefix|..] == s;
  }

  // ---------- searching ----------

  ghost predicate OccursAt(s: string, sub: string, i: nat) {
    i + |sub| <= |s| && s[i..i + |sub|] == sub
  }

  lemma OccursShift(s: string, sub: string)
    requires s != ""
    ensures forall j: nat | 1 <= j :: OccursAt(s, sub, j) <==> OccursAt(s[1..], sub, j - 1)
  {
    forall j: nat | 1 <= j ensures OccursAt(s, sub, j) <==> OccursAt(s[1..], sub, j - 1) {
      if j + |sub| <= |s| {
        SliceShift(s, j, |sub|);
      }
    }
  }

  lemma SliceShift(s: string, j: nat, n: nat)
    requires 1 <= j && j + n <= |s|
    ensures s[j..j + n] == s[1..][j - 1..j - 1 + n]
  {
    var a, b := s[j..j + n], s[1..][j - 1..j - 1 + n];
    assert |a| == |b|;
    forall k | 0 <= k < n ensures a[k] == b[k] {
      assert a[k] == s[j + k] && b[k] == s[1..][j - 1 + k];
    }
  }

  /** `strings.Index`: the first position of `sub` in `s`, or -1. */
  function Index(s: string, sub: string): (r: int)
    ensures -1 <= r <= |s|
    ensures r >= 0 ==> OccursAt(s, sub, r) && forall j: nat | j < r :: !OccursAt(s, sub, j)
    ensures r == -1 ==> forall j: nat :: !OccursAt(s, sub, j)
  {
    if sub <= s then 0
    else if s == "" then -1
    else
      var r := Index(s[1..], sub);
      OccursShift(s, sub);
      if r == -1 then -1 else r + 1
  }

  /** A position that is an occurrence, with none before it, is the one `Index` returns. */
  lemma IndexIs(s: string, sub: string, i: nat)
    requires OccursAt(s, sub, i)
    requires forall j: nat | j < i :: !OccursAt(s, sub, j)
    ensures Index(s, sub) == i
  {
    var r := Index(s, sub);
  }

  lemma IndexOfChar(s: string, c: char, i: nat)
    requires i < |s| && s[i] == c && c !in s[..i]
    ensures Index(s, [c]) == i
  {
    assert s[i..i + 1] == [c];
    forall j: nat | j < i ensures !OccursAt(s, [c], j) {
      assert s[j] == s[..i][j];
      assert s[j..j + 1] == [s[j]];
    }
    IndexIs(s, [c], i);
  }

  // ---------- replacing ----------

  /** `strings.ReplaceAll`: non-overlapping occurrences, left to right. */
  function ReplaceAll(s: string, part: string, replacement: string): string
    requires part != ""
  {
    if |s| < |part| then s
    else if part <= s then replacement + ReplaceAll(s[|part|..], part, replacement)
    else [s[0]] + ReplaceAll(s[1..], part, replacement)
  }

  /** Escaping every dot, as the policy compiler does. */
  function EscapeDots(s: string): string {
    ReplaceAll(s, ".", "\\.")
  }

  /** Undoing it, as the reader of a template does. */
  function UnescapeDots(s: string): string {
    ReplaceAll(s, "\\.", ".")
  }

  lemma EscapeStep(s: string)
    requires s != ""
    ensures EscapeDots(s) == (if s[0] == '.' then "\\." else [s[0]]) + EscapeDots(s[1..])
    ensures EscapeDots(s) != "" && EscapeDots(s)[0] != '.'
  {
    if s[0] == '.' {
      assert "." <= s;
    } else {
      assert !("." <= s);
    }
  }

  /** Escaping is undone exactly, even where the text already holds backslashes. */
  lemma {:induction false} UnescapeEscape(s: string)
    ensures UnescapeDots(EscapeDots(s)) == s
  {
    if s == "" {
    } else {
      EscapeStep(s);
      UnescapeEscape(s[1..]);
      var e, rest := EscapeDots(s), EscapeDots(s[1..]);
      if s[0] == '.' {
        assert e[2..] == rest;
        assert UnescapeDots(e) == "." + UnescapeDots(rest);
      } else {
        assert e[1..] == rest;
        if s[1..] != "" {
          EscapeStep(s[1..]);
        }
        assert !("\\." <= e);
        assert UnescapeDots(e) == [s[0]] + UnescapeDots(rest);
      }
    }
  }

  // ---------- joining and splitting ----------

  function Join(parts: seq<string>, sep: string): string {
    if |parts| == 0 then ""
    else if |parts| == 1 then parts[0]
    else parts[0] + sep + Join(parts[1..], sep)
  }

  /** `strings.Split` on a one-character separator: always at least one part. */
  function Split(s: string, sep: char): (parts: seq<string>)
    ensures |parts| >= 1
    ensures forall k | 0 <= k < |parts| :: sep !in parts[k]
    ensures Join(parts, [sep]) == s
  {
    if s == "" then [""]
    else
      var rest := Split(s[1..], sep);
      if s[0] == sep then
        assert Join([""] + rest, [sep]) == [sep] + Join(rest, [sep]);
        [""] + rest
      else
        var parts := [[s[0]] + rest[0]] + rest[1..];
        assert parts[1..] == rest[1..];
        assert Join(parts, [sep]) == [s[0]] + Join(rest, [sep]);
        parts
  }

  lemma SplitNoSep(s: string, sep: char)
    requires sep !in s
    ensures Split(s, sep) == [s]
  {
    if s != "" {
      assert sep !in s[1..];
      SplitNoSep(s[1..], sep);
      assert s == [s[0]] + s[1..];
    }
  }

  lemma SplitOne(c: char, s: string, sep: char)
    ensures var rest := Split(s, sep);
            Split([c] + s, sep) == if c == sep then [""] + rest else [[c] + rest[0]] + rest[1..]
  {
    assert ([c] + s)[1..] == s;
  }

  lemma {:induction false} SplitCons(s: string, sep: char, tail: string)
    requires sep !in s
    ensures Split(s + [sep] + tail, sep) == [s] + Split(tail, sep)
  {
    if s == "" {
      SplitOne(sep, tail, sep);
      assert s + [sep] + tail == [sep] + tail;
    } else {
      var rest := s[1..] + [sep] + tail;
      SplitCons(s[1..], sep, tail);
      SplitOne(s[0], rest, sep);
      HeadTail(s);
      assert s + [sep] + tail == [s[0]] + rest;
      Cut([s[1..]], Split(tail, sep));
    }
  }

  lemma SplitThree(a: string, b: string, c: string, sep: char)
    requires sep !in a && sep !in b && sep !in c
    ensures Split(a + [sep] + (b + [sep] + c), sep) == [a, b, c]
  {
    SplitCons(a, sep, b + [sep] + c);
    SplitCons(b, sep, c);
    SplitNoSep(c, sep);
  }

  /** Splitting undoes joining for parts free of the separator. */
  lemma {:induction false} SplitJoin(parts: seq<string>, sep: char)
    requires |parts| >= 1
    requires forall k | 0 <= k < |parts| :: sep !in parts[k]
    ensures Split(Join(parts, [sep]), sep) == parts
  {
    if |parts| == 1 {
      SplitNoSep(parts[0], sep);
    } else {
      SplitCons(parts[0], sep, Join(parts[1..], [sep]));
      SplitJoin(parts[1..], sep);
    }
  }
}

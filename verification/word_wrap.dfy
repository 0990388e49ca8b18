/** cmd/vcert/usage.go: wrapping the descriptions of command-line arguments. Sizes are in bytes of
    UTF-8, as the source's buffers measure them. */
module WordWrap {
  import opened Seqs

  const LIMIT := 80
  const BREAK := "\n\t"

  // ---------- characters ----------

  function Width(c: char): nat {
    if c as int < 0x80 then 1 else if c as int < 0x800 then 2 else if c as int < 0x1_0000 then 3 else 4
  }

  function Size(s: string): nat {
    if s == "" then 0 else Size(s[..|s| - 1]) + Width(s[|s| - 1])
  }

  lemma {:induction false} SizeConcat(a: string, b: string)
    ensures Size(a + b) == Size(a) + Size(b)
  {
    if b == "" {
      assert a + b == a;
    } else {
      assert (a + b)[..|a + b| - 1] == a + b[..|b| - 1];
      SizeConcat(a, b[..|b| - 1]);
    }
  }

  /** The length of a character in UTF-8 (section 3 of RFC 3629). */
  lemma WidthIs(c: char)
    ensures Width(c) == 1 <==> c as int <= 0x7F
    ensures Width(c) == 2 <==> 0x80 <= c as int <= 0x7FF
    ensures Width(c) == 3 <==> 0x800 <= c as int <= 0xFFFF
    ensures Width(c) == 4 <==> 0x1_0000 <= c as int
  {}

  /** The code points with the property White_Space of Unicode. */
  lemma SpaceIs(c: char)
    ensures IsSpace(c) <==>
              c as int in {9, 10, 11, 12, 13, 0x20, 0x85, 0xA0, 0x1680, 0x2000, 0x2001, 0x2002, 0x2003, 0x2004, 0x2005,
                           0x2006, 0x2007, 0x2008, 0x2009, 0x200A, 0x2028, 0x2029, 0x202F, 0x205F, 0x3000}
  {}

  /** `unicode.IsSpace`. */
  predicate IsSpace(c: char) {
    var n := c as int;
    || 9 <= n <= 13 || n == 0x20 || n == 0x85 || n == 0xA0 || n == 0x1680 || 0x2000 <= n <= 0x200A
    || n == 0x2028 || n == 0x2029 || n == 0x202F || n == 0x205F || n == 0x3000
  }

  predicate AllSpace(s: string) {
    forall k | 0 <= k < |s| :: IsSpace(s[k])
  }

  predicate NoSpace(s: string) {
    forall k | 0 <= k < |s| :: !IsSpace(s[k])
  }

  /** No character of the text is wider than this. */
  predicate WidthsAtMost(text: string, w: nat) {
    forall k | 0 <= k < |text| :: Width(text[k]) <= w
  }

  // ---------- words ----------

  function Words(s: string): (r: seq<string>)
    ensures s != "" && !IsSpace(s[0]) ==> r != []
  {
    if s == "" then []
    else if IsSpace(s[0]) then Words(s[1..])
    else if |s| == 1 || IsSpace(s[1]) then [[s[0]]] + Words(s[1..])
    else
      var rest := Words(s[1..]);
      [[s[0]] + rest[0]] + rest[1..]
  }

  /** Words do not run together where a space separates two texts. */
  lemma {:induction false} WordsConcat(a: string, b: string)
    requires a == "" || b == "" || IsSpace(a[|a| - 1]) || IsSpace(b[0])
    ensures Words(a + b) == Words(a) + Words(b)
  {
    if a == "" {
      assert a + b == b;
    } else if b == "" {
      assert a + b == a;
    } else {
      assert (a + b)[1..] == a[1..] + b;
      WordsConcat(a[1..], b);
      if !IsSpace(a[0]) && |a| > 1 && !IsSpace(a[1]) {
        assert (a + b)[1] == a[1];
      }
    }
  }

  lemma {:induction false} NoWordsInSpace(s: string)
    requires AllSpace(s)
    ensures Words(s) == []
  {
    if s != "" {
      NoWordsInSpace(s[1..]);
    }
  }

  /** The text before the first space. */
  function FirstWord(s: string): string {
    if s == "" || IsSpace(s[0]) then "" else [s[0]] + FirstWord(s[1..])
  }

  lemma {:induction false} FirstWordGrows(s: string, t: string)
    ensures FirstWord(s) <= FirstWord(s + t)
    ensures t != "" && IsSpace(t[0]) ==> FirstWord(s + t) == FirstWord(s)
  {
    if s != "" {
      assert (s + t)[1..] == s[1..] + t;
      FirstWordGrows(s[1..], t);
    } else {
      assert s + t == t;
    }
  }

  lemma {:induction false} FirstWordOfWord(w: string)
    requires NoSpace(w)
    ensures FirstWord(w) == w
  {
    if w != "" {
      FirstWordOfWord(w[1..]);
      assert w == [w[0]] + w[1..];
    }
  }

  // ---------- what a wrapped text is ----------

  /** The lines with a break after each but the last. */
  function Broken(lines: seq<string>): string {
    if |lines| == 0 then "" else if |lines| == 1 then lines[0] else lines[0] + "\n\t" + Broken(lines[1..])
  }

  /** The lines with the original gap after each. */
  function Spaced(lines: seq<string>, gaps: seq<string>): string
    requires |lines| == |gaps|
  {
    if lines == [] then "" else lines[0] + gaps[0] + Spaced(lines[1..], gaps[1..])
  }

  /** At most 80 bytes, or a word of 80 or more bytes after at most as many bytes as one character. */
  ghost predicate Fits(line: string, w: nat) {
    Size(line) <= 80 ||
    exists k | 0 <= k <= |line| :: Size(line[..k]) <= w && NoSpace(line[k..]) && Size(line[k..]) >= 80
  }

  /** The next word, had it stayed, would have passed the limit. */
  ghost predicate BreakNeeded(line: string, gap: string, next: string) {
    Size(line) + Size(gap) + Size(FirstWord(next)) > 80
  }

  /** `result` is `text` cut into lines at whitespace: each break stands for a nonempty run of
      spaces, only spaces at the very end may be dropped, every line fits, and no break is needless. */
  ghost predicate Wraps(text: string, result: string, lines: seq<string>, gaps: seq<string>, w: nat) {
    && |lines| == |gaps| >= 1
    && result == Broken(lines)
    && text == Spaced(lines, gaps)
    && (forall k | 0 <= k < |gaps| :: AllSpace(gaps[k]) && (k < |gaps| - 1 ==> gaps[k] != ""))
    && (forall k | 0 <= k < |lines| :: Fits(lines[k], w))
    && (forall k | 0 <= k < |lines| - 1 :: BreakNeeded(lines[k], gaps[k], lines[k + 1]))
  }

  ghost predicate IsWrapped(text: string, result: string, w: nat) {
    exists lines, gaps :: Wraps(text, result, lines, gaps, w)
  }

  // ---------- the wrapper ----------

  function WithBreaks(lines: seq<string>): string {
    if lines == [] then "" else WithBreaks(lines[..|lines| - 1]) + lines[|lines| - 1] + BREAK
  }

  lemma {:induction false} BrokenSnoc(lines: seq<string>, last: string)
    ensures Broken(lines + [last]) == WithBreaks(lines) + last
  {
    if lines == [] {
      assert lines + [last] == [last];
    } else {
      WithBreaksCons(lines);
      assert (lines + [last])[1..] == lines[1..] + [last];
      BrokenSnoc(lines[1..], last);
    }
  }

  lemma {:induction false} WithBreaksCons(lines: seq<string>)
    requires lines != []
    ensures WithBreaks(lines) == lines[0] + BREAK + WithBreaks(lines[1..])
  {
    var n := |lines| - 1;
    if n == 0 {
      assert lines[1..] == [] && lines[..n] == [];
      Empty(lines[0]);
      Empty(lines[0] + BREAK);
    } else {
      WithBreaksCons(lines[..n]);
      assert lines[..n][1..] == lines[1..][..n - 1];
      var first, middle := lines[0] + BREAK, WithBreaks(lines[1..][..n - 1]);
      Assoc(first, middle, lines[n]);
      Assoc(first, middle + lines[n], BREAK);
    }
  }

  lemma {:induction false} SpacedSnoc(lines: seq<string>, gaps: seq<string>, line: string, gap: string)
    requires |lines| == |gaps|
    ensures Spaced(lines + [line], gaps + [gap]) == Spaced(lines, gaps) + line + gap
  {
    if lines == [] {
      assert lines + [line] == [line] && gaps + [gap] == [gap];
      assert [line][1..] == [] && [gap][1..] == [];
    } else {
      assert (lines + [line])[1..] == lines[1..] + [line] && (gaps + [gap])[1..] == gaps[1..] + [gap];
      SpacedSnoc(lines[1..], gaps[1..], line, gap);
    }
  }

  /** The word being read still fits after the line and the spaces before it, or is a long one that
      began too late to be moved. */
  ghost predicate Holds(line: string, space: string, word: string, w: nat) {
    || Size(line) + Size(space) + Size(word) <= LIMIT
    || (Size(word) >= LIMIT && Size(line) + Size(space) <= w)
  }

  lemma FlushedLineFits(line: string, space: string, word: string, w: nat)
    requires NoSpace(word) && Holds(line, space, word, w)
    ensures Fits(line + space + word, w)
    ensures Size(line + space + word) == Size(line) + Size(space) + Size(word)
  {
    var flushed, k := line + space + word, |line + space|;
    SizeConcat(line, space);
    SizeConcat(line + space, word);
    assert flushed[..k] == line + space && flushed[k..] == word;
  }

  /** The wrapper after reading `done`: finished lines with their gaps, the line under way, the spaces
      after it and the word being read. */
  datatype State = State(lines: seq<string>, gaps: seq<string>, line: string, space: string, word: string)

  ghost predicate Finished(lines: seq<string>, gaps: seq<string>, w: nat) {
    && |lines| == |gaps|
    && (forall k | 0 <= k < |gaps| :: AllSpace(gaps[k]) && gaps[k] != "")
    && (forall k | 0 <= k < |lines| :: Fits(lines[k], w))
    && (forall k | 0 <= k < |lines| - 1 :: BreakNeeded(lines[k], gaps[k], lines[k + 1]))
  }

  ghost predicate LinesSoFar(s: State, w: nat) {
    && Finished(s.lines, s.gaps, w)
    && (s.lines != [] ==> BreakNeeded(s.lines[|s.lines| - 1], s.gaps[|s.gaps| - 1], s.line + s.space + s.word))
  }

  ghost predicate LineSoFar(s: State, w: nat) {
    && AllSpace(s.space) && NoSpace(s.word) && (s.space == "" ==> s.line == "")
    && Fits(s.line, w) && (s.word != "" ==> Holds(s.line, s.space, s.word, w))
  }

  ghost predicate Reached(s: State, done: string, w: nat) {
    LinesSoFar(s, w) && LineSoFar(s, w) && done == Spaced(s.lines, s.gaps) + s.line + s.space + s.word
  }

  function Flush(s: State): State {
    s.(line := s.line + s.space + s.word, space := "", word := "")
  }

  lemma StillNeeded(s: State, w: nat, longer: State, more: string)
    requires LinesSoFar(s, w)
    requires longer.lines == s.lines && longer.gaps == s.gaps
    requires longer.line + longer.space + longer.word == s.line + s.space + s.word + more
    ensures LinesSoFar(longer, w)
  {
    var next := s.line + s.space + s.word;
    FirstWordGrows(next, more);
    var a, b := FirstWord(next), FirstWord(next + more);
    assert b == a + b[|a|..];
    SizeConcat(a, b[|a|..]);
  }

  /** One character further, as the loop body goes. */
  function Step(s: State, c: char): State {
    if IsSpace(c) then
      var f := if s.space == "" || s.word != "" then Flush(s) else s;
      f.(space := f.space + [c])
    else
      var n := s.(word := s.word + [c]);
      if Size(n.line) + Size(n.space) + Size(n.word) > LIMIT && Size(n.word) < LIMIT
      then State(n.lines + [n.line], n.gaps + [n.space], "", "", n.word)
      else n
  }

  lemma SpaceKeepsLines(s: State, c: char, w: nat)
    requires LinesSoFar(s, w) && IsSpace(c)
    ensures LinesSoFar(Step(s, c), w)
    ensures var n := Step(s, c);
            && n.lines == s.lines && n.gaps == s.gaps
            && n.line + n.space + n.word == s.line + s.space + s.word + [c]
  {
    var n := Step(s, c);
    assert n.line + n.space + n.word == s.line + s.space + s.word + [c];
    StillNeeded(s, w, n, [c]);
  }

  lemma SpaceKeepsLine(s: State, c: char, w: nat)
    requires LineSoFar(s, w) && IsSpace(c)
    ensures LineSoFar(Step(s, c), w)
  {
    if s.word != "" {
      FlushedLineFits(s.line, s.space, s.word, w);
    } else if s.space == "" {
      assert s.line + s.space + s.word == "";
    }
  }

  lemma ReadSpace(s: State, done: string, c: char, w: nat)
    requires Reached(s, done, w) && IsSpace(c)
    ensures Reached(Step(s, c), done + [c], w)
  {
    SpaceKeepsLines(s, c, w);
    SpaceKeepsLine(s, c, w);
    var n, front := Step(s, c), Spaced(s.lines, s.gaps);
    FourParts(front, s.line, s.space, s.word);
    FourParts(front, n.line, n.space, n.word);
    Assoc(front, s.line + s.space + s.word, [c]);
  }

  lemma FourParts(front: string, line: string, space: string, word: string)
    ensures front + line + space + word == front + (line + space + word)
  {}

  lemma ReadLetter(s: State, done: string, c: char, w: nat)
    requires Reached(s, done, w) && !IsSpace(c) && Width(c) <= w
    ensures Reached(Step(s, c), done + [c], w)
  {
    var n := s.(word := s.word + [c]);
    SizeConcat(s.word, [c]);
    assert [c][..0] == "" && Size([c]) == Width(c);
    assert n.line + n.space + n.word == s.line + s.space + s.word + [c];
    StillNeeded(s, w, n, [c]);
    assert done + [c] == Spaced(n.lines, n.gaps) + n.line + n.space + n.word;
    if Size(n.line) + Size(n.space) + Size(n.word) > LIMIT && Size(n.word) < LIMIT {
      BreakLine(n, done + [c], w);
    }
  }

  /** Moving the word to a line of its own. */
  lemma BreakLine(n: State, done: string, w: nat)
    requires LinesSoFar(n, w) && AllSpace(n.space) && NoSpace(n.word) && Fits(n.line, w)
    requires n.space == "" ==> n.line == ""
    requires done == Spaced(n.lines, n.gaps) + n.line + n.space + n.word
    requires Size(n.line) + Size(n.space) + Size(n.word) > LIMIT && Size(n.word) < LIMIT
    ensures Reached(State(n.lines + [n.line], n.gaps + [n.space], "", "", n.word), done, w)
  {
    SpacedSnoc(n.lines, n.gaps, n.line, n.space);
    NewLineIsNeeded(n, w);
  }

  lemma FinishLine(lines: seq<string>, gaps: seq<string>, line: string, gap: string, w: nat)
    requires Finished(lines, gaps, w) && Fits(line, w) && AllSpace(gap) && gap != ""
    requires lines != [] ==> BreakNeeded(lines[|lines| - 1], gaps[|gaps| - 1], line)
    ensures Finished(lines + [line], gaps + [gap], w)
  {
    var ls, gs := lines + [line], gaps + [gap];
    forall k | 0 <= k < |ls| - 1 ensures BreakNeeded(ls[k], gs[k], ls[k + 1]) {
      assert ls[k] == lines[k] && gs[k] == gaps[k];
      assert ls[k + 1] == if k + 1 < |lines| then lines[k + 1] else line;
    }
  }

  lemma WordForcesBreak(line: string, space: string, word: string)
    requires NoSpace(word) && (space == "" ==> line == "")
    requires Size(line) + Size(space) + Size(word) > LIMIT && Size(word) < LIMIT
    ensures space != "" && BreakNeeded(line, space, "" + "" + word)
  {
    FirstWordOfWord(word);
    assert "" + "" + word == word;
  }

  lemma NewLineIsNeeded(n: State, w: nat)
    requires LinesSoFar(n, w) && AllSpace(n.space) && NoSpace(n.word) && Fits(n.line, w)
    requires n.space == "" ==> n.line == ""
    requires Size(n.line) + Size(n.space) + Size(n.word) > LIMIT && Size(n.word) < LIMIT
    ensures n.space != "" && LinesSoFar(State(n.lines + [n.line], n.gaps + [n.space], "", "", n.word), w)
  {
    WordForcesBreak(n.line, n.space, n.word);
    if n.lines != [] {
      NextLineBegins(n, w);
    }
    FinishLine(n.lines, n.gaps, n.line, n.space, w);
  }

  /** The line under way begins with the word that forced the break before it. */
  lemma NextLineBegins(n: State, w: nat)
    requires LinesSoFar(n, w) && n.lines != [] && n.space != "" && AllSpace(n.space)
    ensures BreakNeeded(n.lines[|n.lines| - 1], n.gaps[|n.gaps| - 1], n.line)
  {
    FirstWordGrows(n.line, n.space + n.word);
    assert n.line + (n.space + n.word) == n.line + n.space + n.word;
    assert (n.space + n.word)[0] == n.space[0];
  }

  /** What is written after the last character: the word under way, or the spaces if they fit. */
  function Final(s: State): State {
    if s.word == "" && Size(s.line) + Size(s.space) > LIMIT then s else Flush(s)
  }

  lemma FinalText(s: State, text: string, w: nat)
    requires Reached(s, text, w)
    ensures var f := Final(s); text == Spaced(f.lines, f.gaps) + f.line + f.space
  {
    var front := Spaced(s.lines, s.gaps);
    assert text == front + (s.line + s.space + s.word);
    if Final(s) == s {
      assert s.word == "";
    }
  }

  lemma FinalFits(s: State, w: nat)
    requires LineSoFar(s, w)
    ensures Fits(Final(s).line, w) && AllSpace(Final(s).space)
  {
    if s.word != "" {
      FlushedLineFits(s.line, s.space, s.word, w);
    } else {
      SizeConcat(s.line, s.space);
      assert s.line + s.space + s.word == s.line + s.space;
    }
  }

  lemma FinalNeeded(s: State, w: nat)
    requires LinesSoFar(s, w) && LineSoFar(s, w) && s.lines != []
    ensures BreakNeeded(s.lines[|s.lines| - 1], s.gaps[|s.gaps| - 1], Final(s).line)
  {
    if s.word == "" {
      if s.space != "" {
        NextLineBegins(s, w);
      } else {
        assert s.line + s.space + s.word == s.line;
      }
    }
  }

  lemma FinalLine(s: State, text: string, w: nat)
    requires Reached(s, text, w)
    ensures var f := Final(s);
            && f.lines == s.lines && f.gaps == s.gaps
            && Fits(f.line, w) && AllSpace(f.space)
            && text == Spaced(f.lines, f.gaps) + f.line + f.space
            && (s.lines != [] ==> BreakNeeded(s.lines[|s.lines| - 1], s.gaps[|s.gaps| - 1], f.line))
  {
    FinalText(s, text, w);
    FinalFits(s, w);
    if s.lines != [] {
      FinalNeeded(s, w);
    }
  }

  lemma Finish(s: State, text: string, w: nat)
    requires Reached(s, text, w)
    ensures var f := Final(s);
            Wraps(text, WithBreaks(f.lines) + f.line, f.lines + [f.line], f.gaps + [f.space], w)
  {
    var f := Final(s);
    FinalLine(s, text, w);
    BrokenSnoc(f.lines, f.line);
    SpacedSnoc(f.lines, f.gaps, f.line, f.space);
  }

  lemma FinishedText(s: State, text: string, w: nat)
    requires Reached(s, text, w)
    ensures var result := WithBreaks(Final(s).lines) + Final(s).line;
            IsWrapped(text, result, w) && Words(result) == Words(text)
  {
    var f := Final(s);
    Finish(s, text, w);
    assert Wraps(text, WithBreaks(f.lines) + f.line, f.lines + [f.line], f.gaps + [f.space], w);
    WrappingKeepsWords(text, WithBreaks(f.lines) + f.line, w);
  }

  lemma ReadCharacter(s: State, done: string, c: char, w: nat)
    requires Reached(s, done, w) && Width(c) <= w
    ensures Reached(Step(s, c), done + [c], w)
  {
    if IsSpace(c) {
      ReadSpace(s, done, c, w);
    } else {
      ReadLetter(s, done, c, w);
    }
  }

  /** What the buffers hold in a state. */
  ghost predicate Buffers(s: State, buf: string, current: nat, space: string, word: string) {
    s.space == space && s.word == word && buf == WithBreaks(s.lines) + s.line && current == Size(s.line)
  }

  lemma FlushSize(s: State)
    ensures Size(Flush(s).line) == Size(s.line) + Size(s.space) + Size(s.word)
    ensures WithBreaks(s.lines) + Flush(s).line == WithBreaks(s.lines) + s.line + s.space + s.word
  {
    SizeConcat(s.line, s.space);
    SizeConcat(s.line + s.space, s.word);
    assert Flush(s).line == s.line + s.space + s.word;
  }

  lemma SpaceBuffers(s: State, buf: string, current: nat, space: string, word: string, c: char)
    requires Buffers(s, buf, current, space, word) && IsSpace(c)
    ensures if space == "" || word != ""
            then Buffers(Step(s, c), buf + space + word, current + Size(space) + Size(word), "" + [c], "")
            else Buffers(Step(s, c), buf, current, space + [c], word)
  {
    FlushSize(s);
  }

  lemma LetterBuffers(s: State, buf: string, current: nat, space: string, word: string, c: char)
    requires Buffers(s, buf, current, space, word) && !IsSpace(c)
    ensures var longer := word + [c];
            if current + Size(space) + Size(longer) > LIMIT && Size(longer) < LIMIT
            then Buffers(Step(s, c), buf + BREAK, 0, "", longer)
            else Buffers(Step(s, c), buf, current, space, longer)
  {
    assert (s.lines + [s.line])[..|s.lines|] == s.lines;
    assert WithBreaks(s.lines + [s.line]) + "" == WithBreaks(s.lines) + s.line + BREAK;
  }

  lemma FinalBuffers(s: State, buf: string, current: nat, space: string, word: string)
    requires Buffers(s, buf, current, space, word)
    ensures WithBreaks(Final(s).lines) + Final(s).line
         == if word == "" && current + Size(space) > LIMIT then buf else buf + space + word
  {
    FlushSize(s);
  }

  lemma FinishBuffers(s: State, text: string, w: nat, buf: string, current: nat, space: string, word: string)
    requires Reached(s, text, w) && Buffers(s, buf, current, space, word)
    ensures var result := if word == "" && current + Size(space) > LIMIT then buf else buf + space + word;
            IsWrapped(text, result, w) && Words(result) == Words(text)
  {
    FinishedText(s, text, w);
    FinalBuffers(s, buf, current, space, word);
  }

  /** The result is the text cut into lines at whitespace, and has the same words. `w` is the greatest
      number of bytes of a character. */
  method WrapArgumentDescriptionText(text: string, ghost w: nat)
    returns (result: string)
    requires WidthsAtMost(text, w)
    ensures IsWrapped(text, result, w)
    ensures Words(result) == Words(text)
  {
    var buf, word, space := "", "", "";
    var current: nat := 0;
    ghost var s := State([], [], "", "", "");
    for i := 0 to |text|
      invariant Reached(s, text[..i], w)
      invariant Buffers(s, buf, current, space, word)
    {
      var c := text[i];
      OneMore(text, i);
      ReadCharacter(s, text[..i], c, w);
      if IsSpace(c) {
        SpaceBuffers(s, buf, current, space, word, c);
        if |space| == 0 || |word| > 0 {
          current := current + Size(space) + Size(word);
          buf := buf + space + word;
          space, word := "", "";
        }
        space := space + [c];
      } else {
        LetterBuffers(s, buf, current, space, word, c);
        word := word + [c];
        if current + Size(space) + Size(word) > LIMIT && Size(word) < LIMIT {
          buf := buf + "\n\t";
          current := 0;
          space := "";
        }
      }
      s := Step(s, c);
    }
    assert text[..|text|] == text;
    FinishBuffers(s, text, w, buf, current, space, word);
    if |word| == 0 {
      if current + Size(space) <= LIMIT {
        Empty(buf + space);
        buf := buf + space;
      }
    } else {
      buf := buf + space + word;
    }
    return buf;
  }

  // ---------- words are preserved ----------

  lemma BrokenWords(lines: seq<string>)
    ensures Words(Broken(lines)) == AllWords(lines)
  {
    if |lines| == 1 {
      assert lines[1..] == [];
      assert AllWords(lines) == Words(lines[0]) + [];
    } else if |lines| > 1 {
      BrokenWords(lines[1..]);
      WordsConcat(lines[0], BREAK);
      WordsConcat(lines[0] + BREAK, Broken(lines[1..]));
      NoWordsInSpace(BREAK);
      assert lines[0] + BREAK + Broken(lines[1..]) == (lines[0] + BREAK) + Broken(lines[1..]);
    }
  }

  /** The words of each line, line after line. */
  function AllWords(lines: seq<string>): seq<string> {
    if lines == [] then [] else Words(lines[0]) + AllWords(lines[1..])
  }

  lemma {:induction false} SpacedWords(lines: seq<string>, gaps: seq<string>)
    requires |lines| == |gaps|
    requires forall k | 0 <= k < |gaps| :: AllSpace(gaps[k]) && (k < |gaps| - 1 ==> gaps[k] != "")
    ensures Words(Spaced(lines, gaps)) == AllWords(lines)
  {
    if lines != [] {
      var rest := Spaced(lines[1..], gaps[1..]);
      SpacedWords(lines[1..], gaps[1..]);
      NoWordsInSpace(gaps[0]);
      WordsConcat(lines[0], gaps[0]);
      if |lines| == 1 {
        assert rest == "";
      }
      WordsConcat(lines[0] + gaps[0], rest);
    }
  }

  /** Wrapping keeps the words, in order. */
  lemma WrappingKeepsWords(text: string, result: string, w: nat)
    requires IsWrapped(text, result, w)
    ensures Words(result) == Words(text)
  {
    var lines, gaps :| Wraps(text, result, lines, gaps, w);
    BrokenWords(lines);
    SpacedWords(lines, gaps);
  }

  /** At most 80 bytes, or at most one byte and a word of 80 or more. */
  predicate ShortLine(line: string) {
    |line| <= 80 || exists j | 0 <= j <= 1 :: NoSpace(line[j..]) && |line[j..]| >= 80
  }

  predicate IsAscii(s: string) {
    forall c | c in s :: c as int < 0x80
  }

  /** Wrapped ASCII text consists of short lines, between the breaks and before and after them. */
  lemma AsciiLines(text: string, result: string) returns (lines: seq<string>)
    requires IsAscii(text) && IsWrapped(text, result, 1)
    ensures WidthsAtMost(text, 1)
    ensures result == Broken(lines) && forall k | 0 <= k < |lines| :: ShortLine(lines[k])
  {
    assert forall i | 0 <= i < |text| :: text[i] in text;
    var ls, gaps :| Wraps(text, result, ls, gaps, 1);
    lines := ls;
    forall k | 0 <= k < |lines| ensures ShortLine(lines[k]) {
      AsciiPart(lines, gaps, k);
      AsciiLine(lines[k]);
    }
  }

  lemma AsciiLine(line: string)
    requires IsAscii(line) && Fits(line, 1)
    ensures ShortLine(line)
  {
    SizeAtLeastLength(line);
    if Size(line) > LIMIT {
      var j :| 0 <= j <= |line| && Size(line[..j]) <= 1 && NoSpace(line[j..]) && Size(line[j..]) >= LIMIT;
      SizeAtLeastLength(line[..j]);
      assert forall c | c in line[j..] :: c in line;
      AsciiSize(line[j..]);
    }
  }

  lemma {:induction false} AsciiSize(s: string)
    requires IsAscii(s)
    ensures Size(s) == |s|
  {
    if s != "" {
      var n := |s| - 1;
      assert s[n] in s && forall c | c in s[..n] :: c in s;
      AsciiSize(s[..n]);
    }
  }

  lemma {:induction false} AsciiPart(lines: seq<string>, gaps: seq<string>, k: nat)
    requires |lines| == |gaps| && k < |lines| && IsAscii(Spaced(lines, gaps))
    ensures IsAscii(lines[k])
  {
    var first, rest := lines[0] + gaps[0], Spaced(lines[1..], gaps[1..]);
    assert Spaced(lines, gaps) == first + rest;
    forall c | c in lines[0] || c in rest ensures c as int < 0x80 {
      assert c in first + rest;
    }
    if k > 0 {
      AsciiPart(lines[1..], gaps[1..], k - 1);
    }
  }

  lemma SizeAtLeastLength(s: string)
    ensures Size(s) >= |s|
  {}
}

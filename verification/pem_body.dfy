/** The lines of a PEM block between its BEGIN and END lines, as Go's encoding/pem writes and reads them:
    header lines (RFC 1421, section 4.6), an empty line after them, and base64 in lines of 64. The headers
    are those of an encrypted block, of which only Proc-Type and DEK-Info are written. */
module PemBody {
  import opened Wrappers
  import opened Seqs
  import opened Text
  import opened Bytes
  import opened PemText
  import Base64

  const PROC_TYPE := "Proc-Type"
  const DEK_INFO := "DEK-Info"
  const LINE := 64

  // ---------- writing ----------

  function HeaderLine(key: string, value: string): string {
    key + ": " + value + "\n"
  }

  function OptionalLine(headers: map<string, string>, key: string): string {
    if key in headers then HeaderLine(key, headers[key]) else ""
  }

  /** The Proc-Type header comes first. */
  function HeaderLines(headers: map<string, string>): string {
    if headers == map[] then ""
    else OptionalLine(headers, PROC_TYPE) + OptionalLine(headers, DEK_INFO) + "\n"
  }

  function Broken(s: string): string
    decreases |s|
  {
    if s == "" then ""
    else if |s| <= LINE then s + "\n"
    else s[..LINE] + "\n" + Broken(s[LINE..])
  }

  function WriteBody(b: PemBlock): string {
    HeaderLines(b.headers) + Broken(Base64.Encode(b.bytes))
  }

  // ---------- reading ----------

  predicate IsBlank(c: char) {
    c == ' ' || c == '\t' || c == '\n' || c == '\r' || c as int == 0x0b || c as int == 0x0c
  }

  /** `bytes.TrimSpace`, for ASCII white space. */
  function TrimSpace(s: string): string
    decreases |s|
  {
    if s == "" then ""
    else if IsBlank(s[0]) then TrimSpace(s[1..])
    else if IsBlank(s[|s| - 1]) then TrimSpace(s[..|s| - 1])
    else s
  }

  /** Lines with a colon are headers; the rest begins with the first line that has none. */
  function ReadHeaders(text: string, headers: map<string, string>): (map<string, string>, string)
    decreases |text|
  {
    var (line, next) := FirstLine(text);
    var i := Index(line, ":");
    if i == -1 then (headers, text)
    else
      assert OccursAt(line, ":", i);
      ReadHeaders(next, headers[TrimSpace(line[..i]) := TrimSpace(line[i + 1..])])
  }

  /** Spaces and tabs are removed, and base64 passes over line breaks. */
  function WithoutBlanks(s: string): string {
    if s == "" then ""
    else if s[0] in " \t\n\r" then WithoutBlanks(s[1..])
    else [s[0]] + WithoutBlanks(s[1..])
  }

  function ReadBody(typ: string, text: string): Option<PemBlock> {
    var (headers, rest) := ReadHeaders(text, map[]);
    match Base64.Decode(WithoutBlanks(rest))
    case None => None
    case Some(bytes) => Some(PemBlock(typ, headers, bytes))
  }

  const PEM: BodyCodec := BodyCodec(WriteBody, ReadBody)

  // ---------- base64 lines ----------

  lemma {:induction false} WithoutBlanksConcat(a: string, b: string)
    ensures WithoutBlanks(a + b) == WithoutBlanks(a) + WithoutBlanks(b)
  {
    if a == "" {
      Empty(b);
    } else {
      assert (a + b)[1..] == a[1..] + b;
      WithoutBlanksConcat(a[1..], b);
      Assoc([a[0]], WithoutBlanks(a[1..]), WithoutBlanks(b));
    }
  }

  predicate AllDigits(s: string) {
    forall k | 0 <= k < |s| :: Base64.IsDigit(s[k])
  }

  /** Digits only: no other character occurs, in the text or the start of it. */
  lemma OnlyDigits(s: string, c: char, n: nat)
    requires n <= |s| && AllDigits(s) && !Base64.IsDigit(c)
    ensures c !in s && c !in s[..n]
  {
    assert forall k | 0 <= k < n :: s[..n][k] == s[k];
  }

  lemma {:induction false} NoBlanks(s: string)
    requires AllDigits(s)
    ensures WithoutBlanks(s) == s
  {
    if s != "" {
      NoBlanks(s[1..]);
      HeadTail(s);
    }
  }

  lemma BreakIsBlank()
    ensures WithoutBlanks("\n") == ""
  {
    assert "\n"[1..] == "";
  }

  /** Breaking into lines is undone by passing over the breaks. */
  lemma {:induction false} BrokenWithoutBlanks(s: string)
    requires AllDigits(s)
    ensures WithoutBlanks(Broken(s)) == s
    decreases |s|
  {
    BreakIsBlank();
    if s == "" {
    } else if |s| <= LINE {
      NoBlanks(s);
      WithoutBlanksConcat(s, "\n");
      Empty(s);
    } else {
      var line, rest := s[..LINE], s[LINE..];
      NoBlanks(line);
      BrokenWithoutBlanks(rest);
      WithoutBlanksConcat(line, "\n");
      WithoutBlanksConcat(line + "\n", Broken(rest));
      Empty(line);
      TakeDrop(s, LINE);
    }
  }

  // ---------- header lines ----------

  predicate Trimmed(s: string) {
    s != "" ==> !IsBlank(s[0]) && !IsBlank(s[|s| - 1])
  }

  predicate IsValue(value: string) {
    '\n' !in value && Trimmed(value)
  }

  lemma TrimTrimmed(s: string)
    requires Trimmed(s)
    ensures TrimSpace(s) == s && TrimSpace(" " + s) == s
  {
    assert (" " + s)[1..] == s;
  }

  predicate IsKey(key: string) {
    key != "" && ':' !in key && '\n' !in key && Trimmed(key) && key[0] != '-'
  }

  lemma KnownKeys()
    ensures IsKey(PROC_TYPE) && IsKey(DEK_INFO) && PROC_TYPE != DEK_INFO
  {}

  /** The line of a header without a value loses its last space. */
  lemma HeaderLineTrimmed(key: string, value: string)
    requires IsKey(key) && IsValue(value)
    ensures TrimLine(key + ": " + value) == key + ":" + if value == "" then "" else " " + value
  {
    var line := key + ": " + value;
    if value == "" {
      Empty(key + ":");
      assert line[..|line| - 1] == key + ":" && line[|line| - 1] == ' ';
      assert (key + ":")[|key|] == ':';
      assert TrimRight(key + ":") == key + ":";
    } else {
      assert line[|line| - 1] == value[|value| - 1];
      assert line == key + ":" + (" " + value);
    }
  }

  lemma ReadHeaderLine(key: string, value: string, rest: string, headers: map<string, string>)
    requires IsKey(key) && IsValue(value)
    ensures ReadHeaders(HeaderLine(key, value) + rest, headers) == ReadHeaders(rest, headers[key := value])
  {
    var tail := if value == "" then "" else " " + value;
    HeaderLineTrimmed(key, value);
    FirstLineOf(key + ": " + value, rest);
    CutAtColon(key, tail);
    TrimTrimmed(key);
    TrimTrimmed(value);
  }

  lemma CutAtColon(key: string, tail: string)
    requires ':' !in key
    ensures var line := key + ":" + tail;
            Index(line, ":") == |key| && line[..|key|] == key && line[|key| + 1..] == tail
  {
    var line := key + ":" + tail;
    Cut(key + ":", tail);
    assert line[..|key|] == key;
    IndexOfChar(line, ':', |key|);
  }

  /** Reading stops at a line without a colon. */
  lemma NoHeader(line: string, rest: string, headers: map<string, string>)
    requires '\n' !in line && ':' !in line
    ensures ReadHeaders(line + "\n" + rest, headers) == (headers, line + "\n" + rest)
  {
    FirstLineOf(line, rest);
    NoColon(TrimLine(line));
  }

  lemma NoColon(line: string)
    requires ':' !in line
    ensures Index(line, ":") == -1
  {
    forall j: nat ensures !OccursAt(line, ":", j) {
      assert j + 1 <= |line| ==> line[j..j + 1] == [line[j]];
    }
  }

  // ---------- the headers of a block ----------

  /** A block this codec can write: its headers are none, or those of an encrypted block. */
  predicate IsPlain(b: PemBlock) {
    && CleanType(b.typ)
    && forall key | key in b.headers :: key in {PROC_TYPE, DEK_INFO} && IsValue(b.headers[key])
  }

  lemma ReadOptionalLine(headers: map<string, string>, key: string, rest: string, soFar: map<string, string>)
    requires IsKey(key) && (key in headers ==> IsValue(headers[key]))
    ensures ReadHeaders(OptionalLine(headers, key) + rest, soFar)
         == ReadHeaders(rest, With(soFar, headers, key))
  {
    if key in headers {
      ReadHeaderLine(key, headers[key], rest, soFar);
    } else {
      Empty(rest);
    }
  }

  function With(soFar: map<string, string>, headers: map<string, string>, key: string): map<string, string> {
    if key in headers then soFar[key := headers[key]] else soFar
  }

  // ---------- what can be read at all ----------

  lemma {:induction false} TrimIsValue(s: string)
    requires '\n' !in s
    ensures IsValue(TrimSpace(s))
    decreases |s|
  {
    if s != "" && IsBlank(s[0]) {
      TrimIsValue(s[1..]);
    } else if s != "" && IsBlank(s[|s| - 1]) {
      TrimIsValue(s[..|s| - 1]);
    }
  }

  lemma FirstLineHasNoBreak(data: string)
    ensures '\n' !in FirstLine(data).0
  {
    var i, line := Index(data, "\n"), FirstLine(data).0;
    assert line <= data && (i != -1 ==> |line| <= i);
    forall k | 0 <= k < |line| ensures line[k] != '\n' {
      assert !OccursAt(data, "\n", k);
      assert line[k] == data[k] && data[k..k + 1] == [data[k]];
    }
  }

  /** Reading either stops, or takes one more header with a proper value. */
  lemma ReadStep(text: string, headers: map<string, string>)
    returns (stops: bool, next: string, key: string, value: string)
    ensures stops ==> ReadHeaders(text, headers) == (headers, text)
    ensures !stops ==>
              && |next| < |text| && IsValue(value)
              && ReadHeaders(text, headers) == ReadHeaders(next, headers[key := value])
  {
    var line := FirstLine(text).0;
    var i := Index(line, ":");
    stops, next, key, value := i == -1, FirstLine(text).1, "", "";
    if !stops {
      FirstLineHasNoBreak(text);
      assert OccursAt(line, ":", i);
      var tail := line[i + 1..];
      assert forall c | c in tail :: c in line;
      TrimIsValue(tail);
      key, value := TrimSpace(line[..i]), TrimSpace(tail);
    }
  }

  predicate HasValue(headers: map<string, string>, key: string) {
    key in headers ==> IsValue(headers[key])
  }

  // ---------- no line looks like an END line ----------

  /** No line starts with a dash, and none is left open. */
  predicate WholeLines(s: string) {
    && (s != "" ==> s[|s| - 1] == '\n' && s[0] != '-')
    && forall k | 0 <= k < |s| - 1 && s[k] == '\n' :: s[k + 1] != '-'
  }

  lemma LinesConcat(a: string, b: string)
    requires WholeLines(a) && WholeLines(b)
    ensures WholeLines(a + b)
  {
    var s := a + b;
    forall k | 0 <= k < |s| - 1 && s[k] == '\n' ensures s[k + 1] != '-' {
      if k < |a| - 1 {
        assert s[k] == a[k] && s[k + 1] == a[k + 1];
      } else if k >= |a| {
        assert s[k] == b[k - |a|] && s[k + 1] == b[k + 1 - |a|];
      } else {
        assert s[k + 1] == b[0];
      }
    }
  }

  lemma OneLine(line: string)
    requires '\n' !in line && (line != "" ==> line[0] != '-')
    ensures WholeLines(line + "\n")
  {
    var s := line + "\n";
    forall k | 0 <= k < |s| - 1 ensures s[k] != '\n' {
      assert s[k] == line[k];
    }
  }

  lemma {:induction false} BrokenLines(s: string)
    requires AllDigits(s)
    ensures WholeLines(Broken(s))
    decreases |s|
  {
    if s == "" {
    } else if |s| <= LINE {
      OnlyDigits(s, '\n', |s|);
      OneLine(s);
    } else {
      OnlyDigits(s, '\n', LINE);
      OneLine(s[..LINE]);
      BrokenLines(s[LINE..]);
      LinesConcat(s[..LINE] + "\n", Broken(s[LINE..]));
    }
  }

  lemma OptionalLines(headers: map<string, string>, key: string)
    requires IsKey(key) && (key in headers ==> IsValue(headers[key]))
    ensures WholeLines(OptionalLine(headers, key))
  {
    if key in headers {
      OneLine(key + ": " + headers[key]);
    }
  }

  lemma WrittenLines(b: PemBlock)
    requires IsPlain(b)
    ensures WholeLines(WriteBody(b))
  {
    var proc, dek, s := OptionalLine(b.headers, PROC_TYPE), OptionalLine(b.headers, DEK_INFO), Base64.Encode(b.bytes);
    KnownKeys();
    OptionalLines(b.headers, PROC_TYPE);
    OptionalLines(b.headers, DEK_INFO);
    OneLine("");
    Empty("\n");
    Base64.EncodedDigits(b.bytes);
    BrokenLines(s);
    LinesConcat(proc, dek);
    LinesConcat(proc + dek, "\n");
    LinesConcat(HeaderLines(b.headers), Broken(s));
  }

  lemma NoEndLine(s: string)
    requires WholeLines(s)
    ensures forall j: nat :: !OccursAt("\n" + s, "\n" + END, j)
  {
    var t, sub := "\n" + s, "\n" + END;
    forall j: nat ensures !OccursAt(t, sub, j) {
      assert sub[0] == '\n' && sub[1] == '-';
      assert j + |sub| <= |t| ==> t[j..j + |sub|][0] == t[j] && t[j..j + |sub|][1] == t[j + 1];
      assert j + 1 < |t| && t[j] == '\n' ==> t[j + 1] != '-' by {
        if 1 <= j && j + 1 < |t| {
          assert t[j] == s[j - 1] && t[j + 1] == s[j];
        }
      }
    }
  }

  /** Base64 comes in lines of 64 characters. */
  lemma BrokenIs(s: string)
    ensures Broken(s) == if s == "" then "" else if |s| <= 64 then s + "\n" else s[..64] + "\n" + Broken(s[64..])
  {}

  /** The header lines of an encrypted block. */
  lemma EncryptedHeaderLines(proc: string, dek: string)
    ensures HeaderLines(map["Proc-Type" := proc, "DEK-Info" := dek])
         == "Proc-Type: " + proc + "\nDEK-Info: " + dek + "\n\n"
  {
    var headers := map["Proc-Type" := proc, "DEK-Info" := dek];
    assert "Proc-Type"[0] != "DEK-Info"[0];
    assert headers["Proc-Type"] == proc && headers != map[];
    assert "Proc-Type" + ": " == "Proc-Type: " && "DEK-Info" + ": " == "DEK-Info: ";
    var first, second := "Proc-Type: " + proc + "\n", "DEK-Info: " + dek + "\n";
    assert HeaderLines(headers) == first + second + "\n";
    assert first + second == "Proc-Type: " + proc + "\nDEK-Info: " + dek + "\n";
    assert ("Proc-Type: " + proc + "\nDEK-Info: " + dek + "\n") + "\n"
        == "Proc-Type: " + proc + "\nDEK-Info: " + dek + "\n\n";
  }
}

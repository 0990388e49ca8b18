/** The textual frame of a PEM block (RFC 7468, section 3): a BEGIN line, the body, an END line. The
    body, that is the header lines and the base64 lines, is written and read by a parameter. */
module PemText {
  import opened Wrappers
  import opened Seqs
  import opened Text
  import opened Bytes

  datatype PemBlock = PemBlock(typ: string, headers: map<string, string>, bytes: seq<byte>)

  /** `write` gives the lines between the BEGIN and END lines, `read` recovers a block from its type
      and those lines. */
  datatype BodyCodec = BodyCodec(write: PemBlock -> string, read: (string, string) -> Option<PemBlock>)

  const BEGIN := "-----BEGIN "
  const END := "-----END "
  const DASHES := "-----"

  predicate CleanType(typ: string) {
    '\n' !in typ
  }

  /** The codec carries the block: reading undoes writing, the body is made of whole lines, and none
      of them looks like an END line. */
  ghost predicate Carries(codec: BodyCodec, b: PemBlock) {
    && CleanType(b.typ)
    && codec.read(b.typ, codec.write(b)) == Some(b)
    && (codec.write(b) == "" || HasSuffix(codec.write(b), "\n"))
    && forall j: nat :: !OccursAt("\n" + codec.write(b), "\n" + END, j)
  }

  function EncodePem(codec: BodyCodec, b: PemBlock): string {
    BEGIN + b.typ + DASHES + "\n" + codec.write(b) + END + b.typ + DASHES + "\n"
  }

  /** Position after the first BEGIN marker that starts a line. */
  function AfterBegin(data: string): (r: Option<nat>)
    ensures r.Some? ==> 0 < r.value <= |data|
  {
    if BEGIN <= data then Some(|BEGIN|)
    else
      var i := Index(data, "\n" + BEGIN);
      if i == -1 then None
      else
        assert OccursAt(data, "\n" + BEGIN, i);
        Some(i + 1 + |BEGIN|)
  }

  /** Position of the first END marker that starts a line. */
  function EndMarker(data: string): (r: Option<nat>)
    ensures r.Some? ==> r.value + |END| <= |data|
  {
    var i := Index("\n" + data, "\n" + END);
    if i == -1 then None
    else
      assert OccursAt("\n" + data, "\n" + END, i);
      Some(i)
  }

  /** Spaces and tabs at the end are dropped. */
  function TrimRight(s: string): (r: string)
    ensures r <= s
  {
    if s != "" && s[|s| - 1] in " \t" then TrimRight(s[..|s| - 1]) else s
  }

  /** A line ends in a line feed, or a carriage return and a line feed. */
  function TrimLine(line: string): (r: string)
    ensures r <= line
  {
    TrimRight(if line != "" && line[|line| - 1] == '\r' then line[..|line| - 1] else line)
  }

  /** The first line, without white space at its end, and the text after it. */
  function FirstLine(data: string): (r: (string, string))
    ensures |r.1| <= |data| && (r.0 != "" ==> |r.1| < |data|)
  {
    var i := Index(data, "\n");
    if i == -1 then (TrimRight(data), "")
    else
      assert OccursAt(data, "\n", i);
      (TrimLine(data[..i]), data[i + 1..])
  }

  /** One block whose BEGIN marker has just been passed. */
  function DecodeHere(codec: BodyCodec, after: string): (r: Option<(PemBlock, string)>)
    ensures r.Some? ==> |r.value.1| <= |after|
  {
    var (typeLine, rest) := FirstLine(after);
    if !HasSuffix(typeLine, DASHES) then None
    else
      var typ := typeLine[..|typeLine| - |DASHES|];
      match EndMarker(rest)
      case None => None
      case Some(e) =>
        var (endLine, next) := FirstLine(rest[e + |END|..]);
        if endLine != typ + DASHES then None
        else
          match codec.read(typ, rest[..e])
          case None => None
          case Some(b) => Some((b, next))
  }

  /** `pem.Decode`: the first well-formed block, skipping anything else, and the text after it. */
  function DecodePem(codec: BodyCodec, data: string): (r: Option<(PemBlock, string)>)
    ensures r.Some? ==> |r.value.1| < |data|
    decreases |data|
  {
    match AfterBegin(data)
    case None => None
    case Some(i) =>
      match DecodeHere(codec, data[i..])
      case Some((b, next)) => Some((b, next))
      case None => DecodePem(codec, FirstLine(data[i..]).1)
  }

  // ---------- decoding undoes encoding ----------

  lemma FirstLineOf(line: string, rest: string)
    requires '\n' !in line
    ensures FirstLine(line + "\n" + rest) == (TrimLine(line), rest)
  {
    var data := line + "\n" + rest;
    assert data[..|line|] == line;
    IndexOfChar(data, '\n', |line|);
  }

  lemma DashedLine(typ: string, rest: string)
    requires '\n' !in typ
    ensures FirstLine(typ + DASHES + "\n" + rest) == (typ + DASHES, rest)
  {
    assert (typ + DASHES)[|typ| + 4] == DASHES[4] == '-';
    FirstLineOf(typ + DASHES, rest);
  }

  /** In text that is a body, then an END marker, the marker found is that one. */
  lemma MarkerAfterBody(body: string, rest: string)
    requires body == "" || HasSuffix(body, "\n")
    requires forall j: nat :: !OccursAt("\n" + body, "\n" + END, j)
    ensures EndMarker(body + END + rest) == Some(|body|)
  {
    var s, sub := "\n" + (body + END + rest), "\n" + END;
    assert s[|body|] == '\n' by {
      if body != "" {
        assert body[|body| - 1..][0] == '\n';
      }
    }
    assert s[|body|..|body| + |sub|] == sub;
    forall j: nat | j < |body| ensures !OccursAt(s, sub, j) {
      if OccursAt(s, sub, j) {
        NoEarlyMarker(body, rest, j);
      }
    }
    IndexIs(s, sub, |body|);
  }

  /** An occurrence that began inside the body would either lie in it or put a line break inside the
      marker. */
  lemma NoEarlyMarker(body: string, rest: string, j: nat)
    requires body != "" && HasSuffix(body, "\n") && j < |body|
    requires forall i: nat :: !OccursAt("\n" + body, "\n" + END, i)
    ensures !OccursAt("\n" + (body + END + rest), "\n" + END, j)
  {
    var s, sub, t := "\n" + (body + END + rest), "\n" + END, "\n" + body;
    assert |sub| == 10;
    assert s[|body|] == '\n' by {
      assert body[|body| - 1..][0] == '\n';
    }
    if j + |sub| <= |t| {
      assert s[j..j + |sub|] == t[j..j + |sub|];
      assert !OccursAt(t, sub, j);
    } else {
      assert '\n' !in END;
      assert sub[|body| - j] == END[|body| - j - 1];
      assert j + |sub| <= |s| ==> s[j..j + |sub|][|body| - j] == '\n';
    }
  }

  lemma DecodeAfterBegin(codec: BodyCodec, b: PemBlock, rest: string)
    requires Carries(codec, b)
    ensures DecodeHere(codec, b.typ + DASHES + "\n" + (codec.write(b) + END + (b.typ + DASHES + "\n" + rest)))
         == Some((b, rest))
  {
    var body, endLine := codec.write(b), b.typ + DASHES + "\n" + rest;
    var tail := body + END + endLine;
    DashedLine(b.typ, tail);
    DashedLine(b.typ, rest);
    MarkerAfterBody(body, endLine);
    Assoc(body, END, endLine);
    Cut(body, END + endLine);
    Cut(body + END, endLine);
    Cut(b.typ, DASHES);
  }

  lemma EncodedParts(codec: BodyCodec, b: PemBlock, rest: string)
    ensures EncodePem(codec, b) + rest
         == BEGIN + (b.typ + DASHES + "\n" + (codec.write(b) + END + (b.typ + DASHES + "\n" + rest)))
  {}

  /** Decoding the text of a block, whatever follows it, gives the block and what follows. */
  lemma DecodeEncoded(codec: BodyCodec, b: PemBlock, rest: string)
    requires Carries(codec, b)
    ensures DecodePem(codec, EncodePem(codec, b) + rest) == Some((b, rest))
  {
    var data := EncodePem(codec, b) + rest;
    var after := b.typ + DASHES + "\n" + (codec.write(b) + END + (b.typ + DASHES + "\n" + rest));
    EncodedParts(codec, b, rest);
    assert data == BEGIN + after;
    assert BEGIN <= data && data[|BEGIN|..] == after;
    DecodeAfterBegin(codec, b, rest);
  }

  lemma PrefixOccurs(s: string, sub: string)
    ensures sub <= s <==> OccursAt(s, sub, 0)
  {}

  /** Text without a BEGIN marker holds no block. */
  lemma NothingToDecode(codec: BodyCodec, junk: string)
    requires forall j: nat :: !OccursAt(junk, BEGIN, j)
    ensures DecodePem(codec, junk) == None
  {
    PrefixOccurs(junk, BEGIN);
    var i := Index(junk, "\n" + BEGIN);
    if i >= 0 {
      assert junk[i + 1..i + 1 + |BEGIN|] == ("\n" + BEGIN)[1..];
      assert OccursAt(junk, BEGIN, i + 1);
    }
  }

  /** The frame, character by character. */
  lemma EncodedText(codec: BodyCodec, b: PemBlock)
    ensures EncodePem(codec, b)
         == "-----BEGIN " + b.typ + "-----\n" + codec.write(b) + "-----END " + b.typ + "-----\n"
  {
    assert DASHES + "\n" == "-----\n";
    Assoc("-----BEGIN " + b.typ, DASHES, "\n");
    var body := "-----BEGIN " + b.typ + "-----\n" + codec.write(b) + "-----END " + b.typ;
    Assoc(body, DASHES, "\n");
  }

  // ---------- text around a block ----------

  /** In text without a BEGIN marker, followed by a line break and a marker, that marker is the first. */
  lemma FirstBegin(junk: string, rest: string)
    requires forall j: nat :: !OccursAt(junk, BEGIN, j)
    ensures AfterBegin(junk + ("\n" + BEGIN + rest)) == Some(|junk| + 1 + |BEGIN|)
  {
    var sub := "\n" + BEGIN;
    var tail := sub + rest;
    var data := junk + tail;
    Cut(junk, tail);
    assert data[|junk|..|junk| + |sub|] == sub by {
      assert tail[..|sub|] == sub;
      assert data[|junk|..][..|sub|] == data[|junk|..|junk| + |sub|];
    }
    forall j: nat | j < |junk| ensures !OccursAt(data, BEGIN, j) {
      NotInJunk(junk, tail, j);
    }
    forall j: nat | j < |junk| ensures !OccursAt(data, sub, j) {
      MarkerAfterBreak(data, j);
      assert data[|junk|] == '\n' != BEGIN[0];
    }
    IndexIs(data, sub, |junk|);
    PrefixOccurs(data, BEGIN);
    assert junk == "" ==> data[0] == '\n';
  }

  lemma MarkerAfterBreak(data: string, j: nat)
    ensures OccursAt(data, "\n" + BEGIN, j) ==> OccursAt(data, BEGIN, j + 1) && data[j + 1] == BEGIN[0]
  {
    if OccursAt(data, "\n" + BEGIN, j) {
      var sub := "\n" + BEGIN;
      assert data[j..j + |sub|][1..] == sub[1..] == BEGIN;
      assert data[j..j + |sub|][1..] == data[j + 1..j + 1 + |BEGIN|];
      assert data[j + 1..j + 1 + |BEGIN|][0] == data[j + 1];
    }
  }

  /** A marker that began inside the text would lie in it, or hold the line break after it. */
  lemma NotInJunk(junk: string, tail: string, j: nat)
    requires forall i: nat :: !OccursAt(junk, BEGIN, i)
    requires j < |junk| && tail != "" && tail[0] == '\n'
    ensures !OccursAt(junk + tail, BEGIN, j)
  {
    var data := junk + tail;
    if j + |BEGIN| <= |junk| {
      assert data[j..j + |BEGIN|] == junk[j..j + |BEGIN|];
      assert !OccursAt(junk, BEGIN, j);
    } else {
      assert '\n' !in BEGIN;
      assert data[|junk|] == '\n';
      assert j + |BEGIN| <= |data| ==> data[j..j + |BEGIN|][|junk| - j] == '\n';
      assert BEGIN[|junk| - j] in BEGIN;
    }
  }

  /** Text before a block, and whatever follows it, is passed over. */
  lemma LeadingTextIsSkipped(codec: BodyCodec, junk: string, b: PemBlock, rest: string)
    requires Carries(codec, b) && forall j: nat :: !OccursAt(junk, BEGIN, j)
    ensures DecodePem(codec, junk + ("\n" + (EncodePem(codec, b) + rest))) == Some((b, rest))
  {
    var after := b.typ + DASHES + "\n" + (codec.write(b) + END + (b.typ + DASHES + "\n" + rest));
    EncodedParts(codec, b, rest);
    Assoc("\n", BEGIN, after);
    var data := junk + ("\n" + BEGIN + after);
    FirstBegin(junk, after);
    Assoc(junk, "\n" + BEGIN, after);
    Cut(junk + ("\n" + BEGIN), after);
    DecodeAfterBegin(codec, b, rest);
  }

  /** A block whose END line names another type is no block. */
  lemma WrongEndIsRefused(codec: BodyCodec, b: PemBlock, other: string, rest: string)
    requires Carries(codec, b) && other != b.typ && '\n' !in other
    ensures DecodeHere(codec, b.typ + DASHES + "\n" + (codec.write(b) + END + (other + DASHES + "\n" + rest))) == None
  {
    var body, endLine := codec.write(b), other + DASHES + "\n" + rest;
    var tail := body + END + endLine;
    DashedLine(b.typ, tail);
    DashedLine(other, rest);
    MarkerAfterBody(body, endLine);
    Cut(body + END, endLine);
    Cut(b.typ, DASHES);
    Cut(other, DASHES);
    assert other + DASHES == b.typ + DASHES ==> |other| == |b.typ|;
  }
}

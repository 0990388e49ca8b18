/** Which blocks the PEM text carries: reading their lines undoes writing them. */
module PemLaws {
  import opened Wrappers
  import opened Seqs
  import opened Text
  import opened Bytes
  import opened PemText
  import opened PemCollection
  import opened PemBody
  import Base64

  // ---------- reading undoes writing ----------

  /** The base64 lines hold no header. */
  lemma {:induction false} NoHeaderInLines(s: string, headers: map<string, string>)
    ensures AllDigits(s) ==> ReadHeaders(Broken(s), headers) == (headers, Broken(s))
  {
    if s == "" {
      NoColon("");
    } else if AllDigits(s) {
      var n := if |s| <= LINE then |s| else LINE;
      OnlyDigits(s, '\n', n);
      OnlyDigits(s, ':', n);
      if |s| <= LINE {
        NoHeader(s, "", headers);
        Empty(s + "\n");
      } else {
        NoHeader(s[..LINE], Broken(s[LINE..]), headers);
      }
    }
  }

  /** Every header that is read has a value free of line breaks and of white space around it. */
  lemma {:induction false} ReadValue(text: string, headers: map<string, string>, key: string)
    ensures HasValue(headers, key) ==> HasValue(ReadHeaders(text, headers).0, key)
    decreases |text|
  {
    var stops, next, read, value := ReadStep(text, headers);
    if !stops {
      ReadValue(next, headers[read := value], key);
    }
  }

  /** The two headers written, as far as a block has them. */
  function Kept(headers: map<string, string>): map<string, string> {
    With(With(map[], headers, PROC_TYPE), headers, DEK_INFO)
  }

  predicate HasValues(headers: map<string, string>) {
    forall key | key in headers :: HasValue(headers, key)
  }

  /** The header lines are read back, down to the empty line after them. */
  lemma {:induction false} HeaderLinesRead(headers: map<string, string>, proc: string, dek: string, lines: string)
    ensures proc == OptionalLine(headers, PROC_TYPE) && dek == OptionalLine(headers, DEK_INFO) && HasValues(headers) ==>
              ReadHeaders(proc + dek + "\n" + lines, map[]) == (Kept(headers), "\n" + lines)
  {
    if proc == OptionalLine(headers, PROC_TYPE) && dek == OptionalLine(headers, DEK_INFO) && HasValues(headers) {
      var rest := "\n" + lines;
      KnownKeys();
      Assoc(proc + dek, "\n", lines);
      Assoc(proc, dek, rest);
      ReadOptionalLine(headers, PROC_TYPE, dek + rest, map[]);
      ReadOptionalLine(headers, DEK_INFO, rest, With(map[], headers, PROC_TYPE));
      Empty("\n");
      NoHeader("", lines, Kept(headers));
    }
  }

  lemma {:induction false} LinesRead(bytes: seq<byte>)
    ensures var lines := Broken(Base64.Encode(bytes));
            && Base64.Decode(WithoutBlanks(lines)) == Some(bytes)
            && Base64.Decode(WithoutBlanks("\n" + lines)) == Some(bytes)
  {
    var s := Base64.Encode(bytes);
    Base64.EncodedDigits(bytes);
    BrokenWithoutBlanks(s);
    BreakIsBlank();
    WithoutBlanksConcat("\n", Broken(s));
    Empty(s);
    Base64.DecodeEncode(bytes);
  }

  /** The bytes always come back, and the headers Proc-Type and DEK-Info. */
  lemma {:induction false} ReadWritten(b: PemBlock)
    ensures HasValues(b.headers) ==> ReadBody(b.typ, WriteBody(b)) == Some(b.(headers := Kept(b.headers)))
  {
    var lines := Broken(Base64.Encode(b.bytes));
    LinesRead(b.bytes);
    if b.headers == map[] {
      Empty(lines);
      Base64.EncodedDigits(b.bytes);
      NoHeaderInLines(Base64.Encode(b.bytes), map[]);
    } else {
      HeaderLinesRead(b.headers, OptionalLine(b.headers, PROC_TYPE), OptionalLine(b.headers, DEK_INFO), lines);
    }
  }

  // ---------- the blocks that are carried ----------

  lemma KeptIff(headers: map<string, string>)
    ensures Kept(headers) == headers <==> forall key | key in headers :: key in {PROC_TYPE, DEK_INFO}
  {
    assert forall key | key in Kept(headers) :: key in {PROC_TYPE, DEK_INFO};
  }

  lemma ReadBackIff(b: PemBlock)
    ensures ReadBody(b.typ, WriteBody(b)) == Some(b) <==>
              HasValues(b.headers) && forall key | key in b.headers :: key in {PROC_TYPE, DEK_INFO}
  {
    if HasValues(b.headers) {
      ReadWritten(b);
      KeptIff(b.headers);
    } else {
      var key :| key in b.headers && !HasValue(b.headers, key);
      ReadValue(WriteBody(b), map[], key);
      assert ReadHeaders(WriteBody(b), map[]).0 != b.headers;
    }
  }

  /** The text carries a block exactly if its type is one line, it has no headers but Proc-Type and DEK-Info,
      and their values are one line without white space around it. */
  lemma CarriesIff(b: PemBlock)
    ensures Carries(PEM, b) <==> IsPlain(b)
  {
    ReadBackIff(b);
    if IsPlain(b) {
      WrittenLines(b);
      NoEndLine(WriteBody(b));
    }
  }

  /** So the text of such a block, whatever follows, is read back as the block and what follows. */
  lemma {:induction false} PlainRoundTrip(b: PemBlock, rest: string)
    ensures IsPlain(b) ==> DecodePem(PEM, EncodePem(PEM, b) + rest) == Some((b, rest))
  {
    CarriesIff(b);
    if IsPlain(b) {
      DecodeEncoded(PEM, b, rest);
    }
  }

  lemma CertificateIsPlain(raw: seq<byte>)
    ensures IsPlain(CertificateBlock(raw))
  {
    assert '\n' !in CERTIFICATE;
  }

  /** And what is written and read of a collection asks for no more than this: the certificates are
      acceptable, the key and the request are of their types and plain, and the pickup line holds no BEGIN
      marker. */
  lemma {:induction false} ProperIff(valid: seq<byte> -> bool, m: Material)
    ensures Proper(PEM, valid, m) <==>
              && valid(m.cert) && (forall k | 0 <= k < |m.chain| :: valid(m.chain[k]))
              && (m.key.Some? ==> IsPrivateKey(m.key.value.typ) && IsPlain(m.key.value))
              && (m.csr.Some? ==> m.csr.value.typ == "CERTIFICATE REQUEST" && IsPlain(m.csr.value))
              && Junk(Pickup(m.pickupId))
  {
    CertificateIsPlain(m.cert);
    CarriesIff(CertificateBlock(m.cert));
    forall k | 0 <= k < |m.chain| ensures Carries(PEM, CertificateBlock(m.chain[k])) {
      CertificateIsPlain(m.chain[k]);
      CarriesIff(CertificateBlock(m.chain[k]));
    }
    if m.key.Some? {
      CarriesIff(m.key.value);
    }
    if m.csr.Some? {
      CarriesIff(m.csr.value);
    }
  }
}

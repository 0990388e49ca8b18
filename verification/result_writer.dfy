/** cmd/vcert/result_writer.go (Result.Flush, writeFile): which file, or standard output, every part of
    a result goes to. PEM format. */
module ResultWriter {
  import opened Wrappers
  import opened Seqs
  import opened Text
  import opened Bytes
  import opened PemText
  import opened PemCollection

  datatype Config = Config(command: string, chainOption: ChainOption, allFile: string, keyFile: string,
                           certFile: string, csrFile: string, chainFile: string, pickupIdFile: string)

  /** `pcc` is None for a nil collection. */
  datatype Result = Result(pcc: Option<Contents>, pickupId: string, config: Config)

  const NO_OUTPUT := Output("", "", "", [], "")

  function Body(o: Output, c: Config): string {
    Format(o, c.chainOption)
  }

  // ---------- the writes, in order ----------

  datatype Write = Write(path: string, text: string)

  type Plan = (seq<Write>, Output)

  function CertificateWrites(p: Contents, c: Config): seq<Write> {
    if c.certFile != "" && p.certificate != "" then
      [Write(c.certFile, Body(Output(p.certificate, "", "", if c.chainFile == "" then p.chain else [], ""), c))]
    else []
  }

  function CsrWrites(p: Contents, c: Config): seq<Write> {
    if c.csrFile != "" && p.csr != "" then [Write(c.csrFile, Body(NO_OUTPUT.(csr := p.csr), c))] else []
  }

  function KeyWrites(p: Contents, c: Config): seq<Write> {
    if c.keyFile != "" && p.privateKey != "" then
      [Write(c.keyFile, Body(NO_OUTPUT.(privateKey := p.privateKey), c))]
    else []
  }

  function ChainWrites(p: Contents, c: Config): seq<Write> {
    if c.chainFile != "" && p.chain != [] then [Write(c.chainFile, Body(NO_OUTPUT.(chain := p.chain), c))] else []
  }

  predicate WritesPickup(c: Config) {
    c.command == "enroll" || c.command == "renew"
  }

  function PickupWrites(id: string, c: Config): seq<Write> {
    if WritesPickup(c) && c.pickupIdFile != "" && id != "" then [Write(c.pickupIdFile, id + "\n")] else []
  }

  function CertificateStep(p: Contents, c: Config): Plan {
    var writes := CertificateWrites(p, c);
    (writes, if writes == [] then NO_OUTPUT.(certificate := p.certificate) else NO_OUTPUT)
  }

  function CsrStep(p: Contents, c: Config, plan: Plan): Plan {
    var writes := CsrWrites(p, c);
    (plan.0 + writes, if writes == [] then plan.1.(csr := p.csr) else plan.1)
  }

  function KeyStep(p: Contents, c: Config, plan: Plan): Plan {
    var writes := KeyWrites(p, c);
    (plan.0 + writes, if writes == [] then plan.1.(privateKey := p.privateKey) else plan.1)
  }

  function ChainStep(p: Contents, c: Config, plan: Plan): Plan {
    var writes := ChainWrites(p, c);
    (plan.0 + writes, if writes == [] && c.certFile == "" then plan.1.(chain := p.chain) else plan.1)
  }

  function PickupStep(id: string, c: Config, plan: Plan): Plan {
    var writes := PickupWrites(id, c);
    (plan.0 + writes, if writes == [] && WritesPickup(c) then plan.1.(pickupId := id) else plan.1)
  }

  function AllFileWrite(p: Contents, c: Config): Write {
    Write(c.allFile, Body(Output(p.certificate, p.csr, p.privateKey, p.chain, ""), c))
  }

  /** The files to write for everything but the pickup id, and what is left for standard output. */
  function PartsPlan(p: Contents, c: Config): Plan {
    if c.allFile != "" then ([AllFileWrite(p, c)], NO_OUTPUT)
    else ChainStep(p, c, KeyStep(p, c, CsrStep(p, c, CertificateStep(p, c))))
  }

  /** The files to write, in order, and what is left for standard output. */
  function PlanOf(p: Contents, id: string, c: Config): Plan {
    PickupStep(id, c, PartsPlan(p, c))
  }

  /** The files after a run of writes, of which only those to `writable` paths succeed. */
  function Written(files: map<string, string>, writes: seq<Write>, writable: set<string>): map<string, string> {
    if writes == [] then files
    else
      var w, before := writes[|writes| - 1], Written(files, writes[..|writes| - 1], writable);
      if w.path in writable then before[w.path := w.text] else before
  }

  predicate AllWritable(writes: seq<Write>, writable: set<string>) {
    forall k | 0 <= k < |writes| :: writes[k].path in writable
  }

  lemma WriteOneMore(files: map<string, string>, writes: seq<Write>, w: Write, writable: set<string>)
    ensures Written(files, writes + [w], writable)
         == if w.path in writable then Written(files, writes, writable)[w.path := w.text]
            else Written(files, writes, writable)
    ensures AllWritable(writes + [w], writable) <==> AllWritable(writes, writable) && w.path in writable
  {
    assert (writes + [w])[..|writes|] == writes;
    assert AllWritable(writes + [w], writable) ==> AllWritable(writes, writable) && w.path in writable by {
      assert forall k | 0 <= k < |writes| :: (writes + [w])[k] == writes[k];
      assert (writes + [w])[|writes|] == w;
    }
  }

  /** The file system and standard output. */
  class Sinks {
    var files: map<string, string>
    var stdout: string
    const writable: set<string>
    const stdoutOpen: bool

    constructor (files: map<string, string>, writable: set<string>, stdoutOpen: bool)
      ensures this.files == files && stdout == "" && this.writable == writable && this.stdoutOpen == stdoutOpen
    {
      this.files, this.writable, this.stdoutOpen := files, writable, stdoutOpen;
      stdout := "";
    }

    method WriteFile(path: string, text: string) returns (ok: bool)
      modifies this`files
      ensures ok == (path in writable)
      ensures files == if ok then old(files)[path := text] else old(files)
    {
      ok := path in writable;
      if ok {
        files := files[path := text];
      }
    }

    /** writeFile: an output without certificate, key, request or chain is a pickup id. */
    method WriteOutput(o: Output, r: Result, path: string) returns (ok: bool)
      modifies this`files
      ensures o.certificate != "" || o.privateKey != "" || o.csr != "" || o.chain != [] ==>
                ok == (path in writable) && files == if ok then old(files)[path := Body(o, r.config)] else old(files)
      ensures o == NO_OUTPUT.(pickupId := o.pickupId) && o.pickupId != "" ==>
                var p := r.config.pickupIdFile;
                ok == (p in writable) && files == if ok then old(files)[p := r.pickupId + "\n"] else old(files)
      ensures o == NO_OUTPUT ==> ok && files == old(files)
    {
      ok := true;
      if o.certificate != "" || o.privateKey != "" || o.csr != "" || o.chain != [] {
        var bytes := FormatOutput(o, r.config.chainOption);
        ok := WriteFile(path, bytes);
      } else if o.pickupId != "" {
        ok := WriteFile(r.config.pickupIdFile, r.pickupId + "\n");
      }
    }

    /** The files, the outcome and the text left for standard output are those of the plan so far. */
    ghost predicate Follows(plan: Plan, start: map<string, string>, stdOut: Output, ok: bool)
      reads this`files
    {
      files == Written(start, plan.0, writable) && stdOut == plan.1 && ok == AllWritable(plan.0, writable)
    }

    method FlushCertificate(r: Result, pcc: Contents, ghost start: map<string, string>)
      returns (stdOut: Output, ok: bool)
      requires files == start
      modifies this`files
      ensures Follows(CertificateStep(pcc, r.config), start, stdOut, ok)
    {
      var c := r.config;
      stdOut, ok := NO_OUTPUT, true;
      if c.certFile != "" && pcc.certificate != "" {
        var certFileOutput := NO_OUTPUT.(certificate := pcc.certificate);
        if c.chainFile == "" {
          certFileOutput := certFileOutput.(chain := pcc.chain);
        }
        WriteOneMore(start, [], Write(c.certFile, Body(certFileOutput, c)), writable);
        ok := WriteOutput(certFileOutput, r, c.certFile);
      } else {
        stdOut := stdOut.(certificate := pcc.certificate);
      }
    }

    method FlushCsr(r: Result, pcc: Contents, ghost start: map<string, string>, ghost plan: Plan, soFar: Output,
                    okSoFar: bool)
      returns (stdOut: Output, ok: bool)
      requires Follows(plan, start, soFar, okSoFar)
      modifies this`files
      ensures Follows(CsrStep(pcc, r.config, plan), start, stdOut, ok)
    {
      var c := r.config;
      stdOut, ok := soFar, okSoFar;
      assert plan.0 + [] == plan.0;
      if c.csrFile != "" && pcc.csr != "" {
        var csrFileOutput := NO_OUTPUT.(csr := pcc.csr);
        WriteOneMore(start, plan.0, Write(c.csrFile, Body(csrFileOutput, c)), writable);
        var wrote := WriteOutput(csrFileOutput, r, c.csrFile);
        ok := ok && wrote;
      } else {
        stdOut := stdOut.(csr := pcc.csr);
      }
    }

    method FlushKey(r: Result, pcc: Contents, ghost start: map<string, string>, ghost plan: Plan, soFar: Output,
                    okSoFar: bool)
      returns (stdOut: Output, ok: bool)
      requires Follows(plan, start, soFar, okSoFar)
      modifies this`files
      ensures Follows(KeyStep(pcc, r.config, plan), start, stdOut, ok)
    {
      var c := r.config;
      stdOut, ok := soFar, okSoFar;
      assert plan.0 + [] == plan.0;
      if c.keyFile != "" && pcc.privateKey != "" {
        var keyFileOutput := NO_OUTPUT.(privateKey := pcc.privateKey);
        WriteOneMore(start, plan.0, Write(c.keyFile, Body(keyFileOutput, c)), writable);
        var wrote := WriteOutput(keyFileOutput, r, c.keyFile);
        ok := ok && wrote;
      } else {
        stdOut := stdOut.(privateKey := pcc.privateKey);
      }
    }

    method FlushChain(r: Result, pcc: Contents, ghost start: map<string, string>, ghost plan: Plan, soFar: Output,
                      okSoFar: bool)
      returns (stdOut: Output, ok: bool)
      requires Follows(plan, start, soFar, okSoFar)
      modifies this`files
      ensures Follows(ChainStep(pcc, r.config, plan), start, stdOut, ok)
    {
      var c := r.config;
      stdOut, ok := soFar, okSoFar;
      assert plan.0 + [] == plan.0;
      if c.chainFile != "" && |pcc.chain| > 0 {
        var chainFileOutput := NO_OUTPUT.(chain := pcc.chain);
        WriteOneMore(start, plan.0, Write(c.chainFile, Body(chainFileOutput, c)), writable);
        var wrote := WriteOutput(chainFileOutput, r, c.chainFile);
        ok := ok && wrote;
      } else if c.certFile == "" {
        stdOut := stdOut.(chain := pcc.chain);
      }
    }

    method FlushPickup(r: Result, ghost start: map<string, string>, ghost plan: Plan, soFar: Output, okSoFar: bool)
      returns (stdOut: Output, ok: bool)
      requires Follows(plan, start, soFar, okSoFar)
      modifies this`files
      ensures Follows(PickupStep(r.pickupId, r.config, plan), start, stdOut, ok)
    {
      var c := r.config;
      stdOut, ok := soFar, okSoFar;
      assert plan.0 + [] == plan.0;
      if c.command == "enroll" || c.command == "renew" {
        if c.pickupIdFile != "" && r.pickupId != "" {
          WriteOneMore(start, plan.0, Write(c.pickupIdFile, r.pickupId + "\n"), writable);
          var wrote := WriteOutput(NO_OUTPUT.(pickupId := r.pickupId), r, c.pickupIdFile);
          ok := ok && wrote;
        } else {
          stdOut := stdOut.(pickupId := r.pickupId);
        }
      }
    }

    method FlushParts(r: Result, pcc: Contents, ghost start: map<string, string>) returns (stdOut: Output, ok: bool)
      requires files == start
      modifies this`files
      ensures Follows(PartsPlan(pcc, r.config), start, stdOut, ok)
    {
      var c := r.config;
      if c.allFile != "" {
        var allFileOutput := Output(pcc.certificate, pcc.csr, pcc.privateKey, pcc.chain, "");
        var fileBytes := FormatOutput(allFileOutput, c.chainOption);
        WriteOneMore(start, [], Write(c.allFile, fileBytes), writable);
        assert [] + [Write(c.allFile, fileBytes)] == [Write(c.allFile, fileBytes)];
        stdOut := NO_OUTPUT;
        ok := WriteFile(c.allFile, fileBytes);
      } else {
        ghost var afterCertificate := CertificateStep(pcc, c);
        ghost var afterCsr := CsrStep(pcc, c, afterCertificate);
        stdOut, ok := FlushCertificate(r, pcc, start);
        stdOut, ok := FlushCsr(r, pcc, start, afterCertificate, stdOut, ok);
        stdOut, ok := FlushKey(r, pcc, start, afterCsr, stdOut, ok);
        stdOut, ok := FlushChain(r, pcc, start, KeyStep(pcc, c, afterCsr), stdOut, ok);
      }
    }

    /** Flush fails exactly when there is no collection or some sink refuses its text; a refusal does
        not keep the other sinks from their text. */
    method Flush(r: Result) returns (ok: bool)
      modifies this`files, this`stdout
      ensures r.pcc == None ==> !ok && files == old(files) && stdout == old(stdout)
      ensures r.pcc.Some? ==>
                var plan := PlanOf(r.pcc.value, r.pickupId, r.config);
                && ok == (AllWritable(plan.0, writable) && stdoutOpen)
                && files == Written(old(files), plan.0, writable)
                && stdout == old(stdout) + if stdoutOpen then Body(plan.1, r.config) else ""
    {
      if r.pcc == None {
        return false;
      }
      ghost var start, plan := files, PartsPlan(r.pcc.value, r.config);
      var stdOut: Output;
      stdOut, ok := FlushParts(r, r.pcc.value, start);
      stdOut, ok := FlushPickup(r, start, plan, stdOut, ok);
      var configBytes := FormatOutput(stdOut, r.config.chainOption);
      if stdoutOpen {
        stdout := stdout + configBytes;
      } else {
        ok := false;
      }
    }
  }

  // ---------- where every part goes ----------

  datatype Part = CertificatePart | CsrPart | KeyPart | ChainPart | PickupPart

  datatype Destination = Stdout | File(path: string) | Nowhere

  /** The output a part is put into, read off the configuration alone and the parts there are. */
  function DestinationOf(part: Part, p: Contents, id: string, c: Config): Destination {
    if part == PickupPart then
      if !WritesPickup(c) then Nowhere else if c.pickupIdFile != "" then File(c.pickupIdFile) else Stdout
    else if c.allFile != "" then File(c.allFile)
    else
      match part
      case CertificatePart => if c.certFile != "" then File(c.certFile) else Stdout
      case CsrPart => if c.csrFile != "" then File(c.csrFile) else Stdout
      case KeyPart => if c.keyFile != "" then File(c.keyFile) else Stdout
      case ChainPart =>
        if c.chainFile != "" then File(c.chainFile)
        else if c.certFile == "" then Stdout
        else if p.certificate != "" then File(c.certFile)
        else Nowhere
  }

  /** The output made of the parts that go to a destination. */
  function Share(d: Destination, p: Contents, id: string, c: Config): Output {
    Output(if DestinationOf(CertificatePart, p, id, c) == d then p.certificate else "",
           if DestinationOf(CsrPart, p, id, c) == d then p.csr else "",
           if DestinationOf(KeyPart, p, id, c) == d then p.privateKey else "",
           if DestinationOf(ChainPart, p, id, c) == d then p.chain else [],
           if DestinationOf(PickupPart, p, id, c) == d then id else "")
  }

  predicate Apart(path: string, others: seq<string>) {
    path != "" ==> path !in others
  }

  /** No two of the configured files are the same file. */
  predicate DistinctFiles(c: Config) {
    && Apart(c.allFile, [c.certFile, c.csrFile, c.keyFile, c.chainFile, c.pickupIdFile])
    && Apart(c.certFile, [c.csrFile, c.keyFile, c.chainFile, c.pickupIdFile])
    && Apart(c.csrFile, [c.keyFile, c.chainFile, c.pickupIdFile])
    && Apart(c.keyFile, [c.chainFile, c.pickupIdFile])
    && Apart(c.chainFile, [c.pickupIdFile])
  }

  /** Standard output gets exactly the parts meant for it. */
  lemma StdoutGetsItsShare(p: Contents, id: string, c: Config)
    ensures PlanOf(p, id, c).1 == Share(Stdout, p, id, c)
  {
    PartsLeft(p, c);
  }

  lemma PartsLeft(p: Contents, c: Config)
    ensures PartsPlan(p, c).1 == Share(Stdout, p, "", c)
  {}

  /** The text of a file: its share in the layout of the chain option, the pickup id on a line of its own. */
  function TextFor(path: string, p: Contents, id: string, c: Config): string {
    var o := Share(File(path), p, id, c);
    Body(o.(pickupId := ""), c) + if o.pickupId != "" then o.pickupId + "\n" else ""
  }

  lemma TextOfParts(path: string, p: Contents, id: string, c: Config, o: Output)
    requires Share(File(path), p, id, c) == o && o.pickupId == ""
    ensures TextFor(path, p, id, c) == Body(o, c)
  {
    Empty(Body(o, c));
  }

  /** A file is written if it is the file for everything, or some part there is goes to it. */
  predicate IsWritten(path: string, p: Contents, id: string, c: Config) {
    path != "" && (path == c.allFile || Share(File(path), p, id, c) != NO_OUTPUT)
  }

  /** The text of the last write to a path, if there is one. */
  function LastText(writes: seq<Write>, path: string): Option<string> {
    if writes == [] then None
    else if writes[|writes| - 1].path == path then Some(writes[|writes| - 1].text)
    else LastText(writes[..|writes| - 1], path)
  }

  function Last(a: Option<string>, b: Option<string>): Option<string> {
    if b.Some? then b else a
  }

  lemma {:induction false} LastOfTwo(a: seq<Write>, b: seq<Write>, path: string)
    ensures LastText(a + b, path) == Last(LastText(a, path), LastText(b, path))
    decreases |b|
  {
    if b == [] {
      Empty(a);
    } else {
      var before := b[..|b| - 1];
      assert (a + b)[..|a + b| - 1] == a + before;
      LastOfTwo(a, before, path);
    }
  }

  /** Whatever the files are, a file ends up with the last text written to it, if there is one. */
  lemma {:induction false} LastWriteWins(files: map<string, string>, writes: seq<Write>, writable: set<string>,
                                         path: string)
    requires AllWritable(writes, writable)
    ensures var after := Written(files, writes, writable);
            match LastText(writes, path)
            case Some(text) => path in after && after[path] == text
            case None => (path in after <==> path in files) && (path in files ==> after[path] == files[path])
    decreases |writes|
  {
    if writes != [] {
      LastWriteWins(files, writes[..|writes| - 1], writable, path);
    }
  }

  /** What is written to a file last, read off the configuration and the parts there are: the pickup id
      comes after all else, the chain after the key, the key after the request, and the request after
      the certificate. */
  function LastTextFor(path: string, p: Contents, id: string, c: Config): Option<string> {
    if path == "" then None
    else if path == c.pickupIdFile && (c.command == "enroll" || c.command == "renew") && id != "" then
      Some(id + "\n")
    else if c.allFile != "" then if path == c.allFile then Some(AllFileWrite(p, c).text) else None
    else if path == c.chainFile && p.chain != [] then Some(Body(NO_OUTPUT.(chain := p.chain), c))
    else if path == c.keyFile && p.privateKey != "" then Some(Body(NO_OUTPUT.(privateKey := p.privateKey), c))
    else if path == c.csrFile && p.csr != "" then Some(Body(NO_OUTPUT.(csr := p.csr), c))
    else if path == c.certFile && p.certificate != "" then
      Some(Body(Output(p.certificate, "", "", if c.chainFile == "" then p.chain else [], ""), c))
    else None
  }

  function PartWrites(p: Contents, c: Config): seq<Write> {
    if c.allFile != "" then [AllFileWrite(p, c)]
    else CertificateWrites(p, c) + CsrWrites(p, c) + KeyWrites(p, c) + ChainWrites(p, c)
  }

  lemma PlanParts(p: Contents, id: string, c: Config)
    ensures PlanOf(p, id, c).0 == PartWrites(p, c) + PickupWrites(id, c)
  {}

  /** An at most single write goes to the path. */
  predicate GoesTo(writes: seq<Write>, path: string) {
    writes != [] && writes[0].path == path
  }

  lemma LastOfOne(writes: seq<Write>, path: string)
    requires |writes| <= 1
    ensures LastText(writes, path) == if GoesTo(writes, path) then Some(writes[0].text) else None
  {
    if |writes| == 1 {
      assert LastText(writes[..0], path) == None;
    }
  }

  function LastAmong(a: seq<Write>, b: seq<Write>, d: seq<Write>, e: seq<Write>, path: string): Option<string> {
    if GoesTo(e, path) then Some(e[0].text)
    else if GoesTo(d, path) then Some(d[0].text)
    else if GoesTo(b, path) then Some(b[0].text)
    else if GoesTo(a, path) then Some(a[0].text)
    else None
  }

  lemma LastOfFour(a: seq<Write>, b: seq<Write>, d: seq<Write>, e: seq<Write>, path: string)
    requires |a| <= 1 && |b| <= 1 && |d| <= 1 && |e| <= 1
    ensures LastText(a + b + d + e, path) == LastAmong(a, b, d, e, path)
  {
    LastOfTwo(a + b + d, e, path);
    LastOfTwo(a + b, d, path);
    LastOfTwo(a, b, path);
    LastOfOne(a, path);
    LastOfOne(b, path);
    LastOfOne(d, path);
    LastOfOne(e, path);
  }

  lemma LastAmongParts(p: Contents, c: Config, path: string)
    requires c.allFile == ""
    ensures LastAmong(CertificateWrites(p, c), CsrWrites(p, c), KeyWrites(p, c), ChainWrites(p, c), path)
         == LastTextFor(path, p, "", c)
  {}

  lemma LastTextOfParts(p: Contents, c: Config, path: string)
    ensures LastText(PartWrites(p, c), path) == LastTextFor(path, p, "", c)
  {
    if c.allFile != "" {
      LastOfOne([AllFileWrite(p, c)], path);
    } else {
      LastOfFour(CertificateWrites(p, c), CsrWrites(p, c), KeyWrites(p, c), ChainWrites(p, c), path);
      LastAmongParts(p, c, path);
    }
  }

  lemma LastTextOfWrites(p: Contents, id: string, c: Config, writes: seq<Write>, path: string)
    requires LastText(writes, path)
          == Last(LastText(PartWrites(p, c), path), LastText(PickupWrites(id, c), path))
    ensures LastText(writes, path) == LastTextFor(path, p, id, c)
  {
    LastTextOfParts(p, c, path);
    LastOfOne(PickupWrites(id, c), path);
  }

  lemma LastTextOfPlan(p: Contents, id: string, c: Config, path: string)
    ensures LastText(PlanOf(p, id, c).0, path) == LastTextFor(path, p, id, c)
  {
    var parts, pickup := PartWrites(p, c), PickupWrites(id, c);
    LastOfTwo(parts, pickup, path);
    LastTextOfWrites(p, id, c, parts + pickup, path);
    PlanParts(p, id, c);
  }

  /** What a file holds afterwards, for every configuration, files shared between parts included. */
  lemma FileHoldsLast(files: map<string, string>, p: Contents, id: string, c: Config, writable: set<string>,
                      path: string)
    requires AllWritable(PlanOf(p, id, c).0, writable)
    ensures var after := Written(files, PlanOf(p, id, c).0, writable);
            match LastTextFor(path, p, id, c)
            case Some(text) => path in after && after[path] == text
            case None => (path in after <==> path in files) && (path in files ==> after[path] == files[path])
  {
    LastWriteWins(files, PlanOf(p, id, c).0, writable, path);
    LastTextOfPlan(p, id, c, path);
  }

  // ---------- files that hold their share ----------

  /** The text of an at most single write, if it goes to the path. */
  function TextTo(writes: seq<Write>, path: string): string {
    if writes != [] && writes[0].path == path then writes[0].text else ""
  }

  /** The texts of everything that goes to a file before what goes there last are empty. */
  predicate EarlierAreEmpty(path: string, p: Contents, id: string, c: Config) {
    var certificate, csr := TextTo(CertificateWrites(p, c), path), TextTo(CsrWrites(p, c), path);
    var key, chain := TextTo(KeyWrites(p, c), path), TextTo(ChainWrites(p, c), path);
    if c.allFile != "" then path == c.allFile && GoesTo(PickupWrites(id, c), path) ==> AllFileWrite(p, c).text == ""
    else if GoesTo(PickupWrites(id, c), path) then certificate == csr == key == chain == ""
    else if GoesTo(ChainWrites(p, c), path) then certificate == csr == key == ""
    else if GoesTo(KeyWrites(p, c), path) then certificate == csr == ""
    else if GoesTo(CsrWrites(p, c), path) then certificate == ""
    else true
  }

  /** The share of a file, without a file for everything. */
  function FileShare(path: string, p: Contents, c: Config): Output {
    Output(if path == c.certFile then p.certificate else "", if path == c.csrFile then p.csr else "",
           if path == c.keyFile then p.privateKey else "",
           if path == c.chainFile || (c.chainFile == "" && path == c.certFile && p.certificate != "") then p.chain
           else [],
           "")
  }

  lemma FileShareIs(p: Contents, id: string, c: Config, path: string)
    requires c.allFile == "" && path != ""
    ensures Share(File(path), p, id, c).(pickupId := "") == FileShare(path, p, c)
  {}

  lemma FormatLength(o: Output, option: ChainOption)
    requires o.pickupId == ""
    ensures |Format(o, option)| == |o.certificate| + |o.privateKey| + (if option == RootLast then |o.csr| else 0)
                                   + if option == IgnoreChain then 0 else |Join(o.chain, "")|
  {}

  lemma CsrAndKeyLength(p: Contents, c: Config, path: string)
    requires path != ""
    ensures |TextTo(CsrWrites(p, c), path)| == if c.chainOption == RootLast then |FileShare(path, p, c).csr| else 0
    ensures |TextTo(KeyWrites(p, c), path)| == |FileShare(path, p, c).privateKey|
  {
    JoinNone();
    FormatLength(NO_OUTPUT.(csr := p.csr), c.chainOption);
    FormatLength(NO_OUTPUT.(privateKey := p.privateKey), c.chainOption);
  }

  lemma CertificateAndChainLength(p: Contents, c: Config, path: string)
    requires path != ""
    ensures |TextTo(CertificateWrites(p, c), path)| + |TextTo(ChainWrites(p, c), path)|
         == |FileShare(path, p, c).certificate|
            + if c.chainOption == IgnoreChain then 0 else |Join(FileShare(path, p, c).chain, "")|
  {
    JoinNone();
    FormatLength(Output(p.certificate, "", "", if c.chainFile == "" then p.chain else [], ""), c.chainOption);
    FormatLength(NO_OUTPUT.(chain := p.chain), c.chainOption);
  }

  /** The share's text is as long as the texts of its parts together. */
  lemma ShareLength(p: Contents, c: Config, path: string)
    requires path != ""
    ensures |Body(FileShare(path, p, c), c)|
         == |TextTo(CertificateWrites(p, c), path)| + |TextTo(CsrWrites(p, c), path)|
            + |TextTo(KeyWrites(p, c), path)| + |TextTo(ChainWrites(p, c), path)|
  {
    CsrAndKeyLength(p, c, path);
    CertificateAndChainLength(p, c, path);
    FormatLength(FileShare(path, p, c), c.chainOption);
  }

  /** And it is the text of a part if it is as long as that. */
  lemma ShareIsOneText(p: Contents, c: Config, path: string)
    requires c.allFile == "" && path != ""
    ensures var all := Body(FileShare(path, p, c), c);
            && (GoesTo(CertificateWrites(p, c), path) && |all| == |CertificateWrites(p, c)[0].text| ==>
                  all == CertificateWrites(p, c)[0].text)
            && (GoesTo(CsrWrites(p, c), path) && |all| == |CsrWrites(p, c)[0].text| ==> all == CsrWrites(p, c)[0].text)
            && (GoesTo(KeyWrites(p, c), path) && |all| == |KeyWrites(p, c)[0].text| ==> all == KeyWrites(p, c)[0].text)
            && (GoesTo(ChainWrites(p, c), path) && |all| == |ChainWrites(p, c)[0].text| ==>
                  all == ChainWrites(p, c)[0].text)
  {
    var o := FileShare(path, p, c);
    OneKept(o, Output(p.certificate, "", "", if c.chainFile == "" then p.chain else [], ""), c.chainOption);
    OneKept(o, NO_OUTPUT.(csr := p.csr), c.chainOption);
    OneKept(o, NO_OUTPUT.(privateKey := p.privateKey), c.chainOption);
    OneKept(o, NO_OUTPUT.(chain := p.chain), c.chainOption);
  }

  lemma OneKept(o: Output, part: Output, option: ChainOption)
    requires o.pickupId == part.pickupId == ""
    ensures && (part.certificate in {"", o.certificate}) && (part.privateKey in {"", o.privateKey})
            && (part.csr in {"", o.csr}) && (part.chain == [] || part.chain == o.chain)
            && |Format(o, option)| == |Format(part, option)|
            ==> Format(o, option) == Format(part, option)
  {
    JoinNone();
    FormatLength(o, option);
    FormatLength(part, option);
    FormatKeeps(o, part, option);
  }

  /** The layout of an output depends only on what the chain option keeps. */
  lemma FormatKeeps(o: Output, o': Output, option: ChainOption)
    ensures o.certificate == o'.certificate && o.privateKey == o'.privateKey && o.pickupId == o'.pickupId
            && (option == RootLast ==> o.csr == o'.csr)
            && (option != IgnoreChain ==> Join(o.chain, "") == Join(o'.chain, ""))
            ==> Format(o, option) == Format(o', option)
  {}

  lemma JoinNone()
    ensures Join([], "") == ""
  {}

  lemma FileHoldsShareIff(p: Contents, id: string, c: Config, path: string)
    requires IsWritten(path, p, id, c) && c.allFile == "" && !GoesTo(PickupWrites(id, c), path)
    ensures LastTextFor(path, p, id, c) == Some(TextFor(path, p, id, c)) <==> EarlierAreEmpty(path, p, id, c)
  {
    FileShareIs(p, id, c, path);
    assert Share(File(path), p, id, c).pickupId == "";
    TextOfParts(path, p, id, c, FileShare(path, p, c));
    ShareLength(p, c, path);
    ShareIsOneText(p, c, path);
  }

  lemma PickupFileHoldsShareIff(p: Contents, id: string, c: Config, path: string)
    requires c.allFile == "" && GoesTo(PickupWrites(id, c), path)
    ensures LastTextFor(path, p, id, c) == Some(TextFor(path, p, id, c)) <==> EarlierAreEmpty(path, p, id, c)
  {
    FileShareIs(p, id, c, path);
    ShareLength(p, c, path);
    var all, line := Body(FileShare(path, p, c), c), id + "\n";
    assert TextFor(path, p, id, c) == all + line;
    assert |all + line| == |all| + |line|;
    Empty(line);
  }

  /** Files shared between parts included: a written file holds its share exactly if the layout leaves no
      text for anything that goes there before the last. */
  lemma HoldsShareIff(p: Contents, id: string, c: Config, path: string)
    requires IsWritten(path, p, id, c)
    ensures LastTextFor(path, p, id, c) == Some(TextFor(path, p, id, c)) <==> EarlierAreEmpty(path, p, id, c)
  {
    if c.allFile == "" {
      if GoesTo(PickupWrites(id, c), path) {
        PickupFileHoldsShareIff(p, id, c, path);
      } else {
        FileHoldsShareIff(p, id, c, path);
      }
    } else {
      var o := Share(File(path), p, id, c);
      var all := Body(o.(pickupId := ""), c);
      JoinNone();
      FormatLength(o.(pickupId := ""), c.chainOption);
      Empty(all);
      Empty(o.pickupId + "\n");
      assert path != c.allFile ==> o.(pickupId := "") == NO_OUTPUT;
    }
  }

  lemma DistinctFilesApart(p: Contents, id: string, c: Config, path: string)
    requires DistinctFiles(c)
    ensures EarlierAreEmpty(path, p, id, c)
  {}

  /** Routing: when every file can be written and no two are the same, every file ends up with its
      share and nothing else is touched. */
  lemma FilesGetTheirShare(p: Contents, id: string, c: Config, files: map<string, string>, writable: set<string>,
                           path: string)
    requires AllWritable(PlanOf(p, id, c).0, writable) && (DistinctFiles(c) || EarlierAreEmpty(path, p, id, c))
    ensures var after := Written(files, PlanOf(p, id, c).0, writable);
            if IsWritten(path, p, id, c) then path in after && after[path] == TextFor(path, p, id, c)
            else (path in after <==> path in files) && (path in files ==> after[path] == files[path])
  {
    FileHoldsLast(files, p, id, c, writable, path);
    if DistinctFiles(c) {
      DistinctFilesApart(p, id, c, path);
    }
    if IsWritten(path, p, id, c) {
      HoldsShareIff(p, id, c, path);
    }
  }

  // ---------- which parts are lost ----------

  function Paths(c: Config): set<string> {
    {c.allFile, c.certFile, c.csrFile, c.keyFile, c.chainFile, c.pickupIdFile}
  }

  /** The files and the text on standard output afterwards, when every write succeeds. */
  function Afterwards(files: map<string, string>, p: Contents, id: string, c: Config): (map<string, string>, string) {
    (Written(files, PlanOf(p, id, c).0, Paths(c)), Body(PlanOf(p, id, c).1, c))
  }

  predicate IsThere(part: Part, p: Contents, id: string) {
    match part
    case CertificatePart => p.certificate != ""
    case CsrPart => p.csr != ""
    case KeyPart => p.privateKey != ""
    case ChainPart => p.chain != []
    case PickupPart => id != ""
  }

  /** `q` and `i` are what `p` and `id` are, but for the part, of which there is one. */
  predicate IsVariant(part: Part, p: Contents, id: string, q: Contents, i: string) {
    && IsThere(part, q, i)
    && match part
       case CertificatePart => i == id && q == p.(certificate := q.certificate)
       case CsrPart => i == id && q == p.(csr := q.csr)
       case KeyPart => i == id && q == p.(privateKey := q.privateKey)
       case ChainPart => i == id && q == p.(chain := q.chain)
       case PickupPart => q == p
  }

  /** A part is lost if nothing that is found afterwards depends on it, as long as there is one. */
  ghost predicate IsLost(part: Part, files: map<string, string>, p: Contents, id: string, c: Config) {
    forall q, i, r, j | IsVariant(part, p, id, q, i) && IsVariant(part, p, id, r, j) ::
      Afterwards(files, q, i, c) == Afterwards(files, r, j, c)
  }

  /** The layout has no place for the request, or for a chain that is to be ignored; no output takes the
      chain, when there is a certificate file but no certificate to put in it, and no chain file; and only
      two commands write the pickup id. */
  predicate IsDropped(part: Part, p: Contents, c: Config) {
    match part
    case CertificatePart => false
    case CsrPart => c.chainOption != RootLast
    case KeyPart => false
    case ChainPart =>
      || c.chainOption == IgnoreChain
      || (c.allFile == "" && c.chainFile == "" && c.certFile != "" && p.certificate == "")
    case PickupPart => c.command != "enroll" && c.command != "renew"
  }

  /** The order of the writes; parts of the same turn are written together. */
  function Turn(part: Part, c: Config): nat {
    match part
    case CertificatePart => 0
    case CsrPart => if c.allFile != "" then 0 else 1
    case KeyPart => if c.allFile != "" then 0 else 2
    case ChainPart => if c.allFile != "" || c.chainFile == "" then 0 else 3
    case PickupPart => 4
  }

  /** A part of a later turn goes to the same file. */
  predicate IsOverwritten(part: Part, p: Contents, id: string, c: Config) {
    var d := DestinationOf(part, p, id, c);
    d.File? && exists later: Part ::
      IsThere(later, p, id) && Turn(part, c) < Turn(later, c) && DestinationOf(later, p, id, c) == d
  }

  lemma PlanIsWritable(p: Contents, id: string, c: Config)
    ensures AllWritable(PlanOf(p, id, c).0, Paths(c))
  {
    PlanParts(p, id, c);
  }

  function StdoutText(p: Contents, id: string, c: Config): string {
    Body(Share(Stdout, p, id, c), c)
  }

  /** Every file is written the same last, and standard output gets the same text. */
  predicate WrittenAlike(x: Contents, i: string, y: Contents, j: string, c: Config) {
    && (forall path | path in Paths(c) :: LastTextFor(path, x, i, c) == LastTextFor(path, y, j, c))
    && StdoutText(x, i, c) == StdoutText(y, j, c)
  }

  lemma OnlyPathsAreWritten(p: Contents, id: string, c: Config, path: string)
    ensures path !in Paths(c) ==> LastTextFor(path, p, id, c) == None
  {}

  lemma FoundAlike(files: map<string, string>, x: Contents, i: string, y: Contents, j: string, c: Config)
    requires WrittenAlike(x, i, y, j, c)
    ensures Afterwards(files, x, i, c) == Afterwards(files, y, j, c)
  {
    var a, b := Afterwards(files, x, i, c).0, Afterwards(files, y, j, c).0;
    PlanIsWritable(x, i, c);
    PlanIsWritable(y, j, c);
    StdoutGetsItsShare(x, i, c);
    StdoutGetsItsShare(y, j, c);
    forall path ensures (path in a <==> path in b) && (path in a ==> a[path] == b[path]) {
      OnlyPathsAreWritten(x, i, c, path);
      OnlyPathsAreWritten(y, j, c, path);
      FileHoldsLast(files, x, i, c, Paths(c), path);
      FileHoldsLast(files, y, j, c, Paths(c), path);
    }
    assert a == b;
  }

  lemma FoundApart(files: map<string, string>, x: Contents, i: string, y: Contents, j: string, c: Config)
    requires !WrittenAlike(x, i, y, j, c)
    requires forall path | path in Paths(c) :: LastTextFor(path, x, i, c).Some? <==> LastTextFor(path, y, j, c).Some?
    ensures Afterwards(files, x, i, c) != Afterwards(files, y, j, c)
  {
    PlanIsWritable(x, i, c);
    PlanIsWritable(y, j, c);
    StdoutGetsItsShare(x, i, c);
    StdoutGetsItsShare(y, j, c);
    if path :| path in Paths(c) && LastTextFor(path, x, i, c) != LastTextFor(path, y, j, c) {
      FileHoldsLast(files, x, i, c, Paths(c), path);
      FileHoldsLast(files, y, j, c, Paths(c), path);
    }
  }

  // ---------- what is dropped or overwritten is not seen ----------

  lemma NotOnStdout(part: Part, p: Contents, id: string, c: Config, q: Contents, i: string, r: Contents, j: string)
    requires IsVariant(part, p, id, q, i) && IsVariant(part, p, id, r, j) && DestinationOf(part, p, id, c) != Stdout
    ensures Share(Stdout, q, i, c) == Share(Stdout, r, j, c)
  {}

  lemma OverwrittenAt(part: Part, p: Contents, id: string, c: Config, q: Contents, i: string, r: Contents, j: string,
                      path: string)
    requires IsVariant(part, p, id, q, i) && IsVariant(part, p, id, r, j)
    requires DestinationOf(part, p, id, c) == Nowhere || IsOverwritten(part, p, id, c)
    ensures LastTextFor(path, q, i, c) == LastTextFor(path, r, j, c)
  {}

  lemma DroppedAlike(part: Part, p: Contents, id: string, c: Config, q: Contents, i: string, r: Contents, j: string)
    requires IsVariant(part, p, id, q, i) && IsVariant(part, p, id, r, j)
    requires IsDropped(part, p, c) && DestinationOf(part, p, id, c) != Nowhere
    ensures WrittenAlike(q, i, r, j, c)
  {
    FormatKeeps(Share(Stdout, q, i, c), Share(Stdout, r, j, c), c.chainOption);
    forall path | path in Paths(c) ensures LastTextFor(path, q, i, c) == LastTextFor(path, r, j, c) {
      DroppedAt(part, p, id, c, q, i, r, j, path);
    }
  }

  lemma DroppedAt(part: Part, p: Contents, id: string, c: Config, q: Contents, i: string, r: Contents, j: string,
                  path: string)
    requires IsVariant(part, p, id, q, i) && IsVariant(part, p, id, r, j)
    requires IsDropped(part, p, c) && DestinationOf(part, p, id, c) != Nowhere
    ensures LastTextFor(path, q, i, c) == LastTextFor(path, r, j, c)
  {
    FormatKeeps(Output(q.certificate, q.csr, q.privateKey, q.chain, ""),
                Output(r.certificate, r.csr, r.privateKey, r.chain, ""), c.chainOption);
    FormatKeeps(Output(q.certificate, "", "", q.chain, ""), Output(r.certificate, "", "", r.chain, ""), c.chainOption);
    FormatKeeps(NO_OUTPUT.(csr := q.csr), NO_OUTPUT.(csr := r.csr), c.chainOption);
    FormatKeeps(NO_OUTPUT.(chain := q.chain), NO_OUTPUT.(chain := r.chain), c.chainOption);
  }

  lemma Hidden(part: Part, p: Contents, id: string, c: Config, q: Contents, i: string, r: Contents, j: string)
    requires IsVariant(part, p, id, q, i) && IsVariant(part, p, id, r, j)
    requires IsDropped(part, p, c) || IsOverwritten(part, p, id, c)
    ensures WrittenAlike(q, i, r, j, c)
  {
    if DestinationOf(part, p, id, c) == Nowhere || IsOverwritten(part, p, id, c) {
      NotOnStdout(part, p, id, c, q, i, r, j);
      forall path | path in Paths(c) ensures LastTextFor(path, q, i, c) == LastTextFor(path, r, j, c) {
        OverwrittenAt(part, p, id, c, q, i, r, j, path);
      }
    } else {
      DroppedAlike(part, p, id, c, q, i, r, j);
    }
  }

  // ---------- and everything else is ----------

  function Variant(part: Part, p: Contents, id: string, x: string): (Contents, string) {
    match part
    case CertificatePart => (p.(certificate := x), id)
    case CsrPart => (p.(csr := x), id)
    case KeyPart => (p.(privateKey := x), id)
    case ChainPart => (p.(chain := [x]), id)
    case PickupPart => (p, x)
  }

  lemma JoinOne(x: string)
    ensures Join([x], "") == x && Join([], "") == ""
  {}

  /** In a layout that has a place for the part, another part gives another text. */
  lemma LayoutsDiffer(o: Output, option: ChainOption)
    ensures Format(o.(certificate := "a"), option) != Format(o.(certificate := "b"), option)
    ensures Format(o.(privateKey := "a"), option) != Format(o.(privateKey := "b"), option)
    ensures option == RootLast ==> Format(o.(csr := "a"), option) != Format(o.(csr := "b"), option)
    ensures option != IgnoreChain ==> Format(o.(chain := ["a"]), option) != Format(o.(chain := ["b"]), option)
    ensures Format(o.(pickupId := "a"), option) != Format(o.(pickupId := "b"), option)
  {
    JoinOne("a");
    JoinOne("b");
    var chain, pickup := Join(o.chain, ""), Pickup(o.pickupId);
    var i := if option == RootFirst then |chain| else 0;
    assert Format(o.(certificate := "a"), option)[i] == 'a' && Format(o.(certificate := "b"), option)[i] == 'b';
    i := match option
         case RootFirst => |chain| + |o.certificate|
         case IgnoreChain => |o.certificate|
         case RootLast => |o.certificate| + |o.csr|;
    assert Format(o.(privateKey := "a"), option)[i] == 'a' && Format(o.(privateKey := "b"), option)[i] == 'b';
    if option == RootLast {
      i := |o.certificate|;
      assert Format(o.(csr := "a"), option)[i] == 'a' && Format(o.(csr := "b"), option)[i] == 'b';
    }
    if option != IgnoreChain {
      i := if option == RootFirst then 0 else |o.certificate| + |o.csr| + |o.privateKey|;
      assert Format(o.(chain := ["a"]), option)[i] == 'a' && Format(o.(chain := ["b"]), option)[i] == 'b';
    }
    PickupDiffers(o, option);
  }

  lemma PickupDiffers(o: Output, option: ChainOption)
    ensures Format(o.(pickupId := "a"), option) != Format(o.(pickupId := "b"), option)
  {
    var text := Format(o.(pickupId := ""), option);
    Empty(text);
    assert Format(o.(pickupId := "a"), option) == text + Pickup("a");
    assert Format(o.(pickupId := "b"), option) == text + Pickup("b");
    assert Pickup("a")[10] == 'a' && Pickup("b")[10] == 'b';
    Cut(text, Pickup("a"));
    Cut(text, Pickup("b"));
  }

  function Put(part: Part, o: Output, x: string): Output {
    match part
    case CertificatePart => o.(certificate := x)
    case CsrPart => o.(csr := x)
    case KeyPart => o.(privateKey := x)
    case ChainPart => o.(chain := [x])
    case PickupPart => o.(pickupId := x)
  }

  lemma PutDiffers(part: Part, o: Output, p: Contents, c: Config)
    requires !IsDropped(part, p, c)
    ensures Body(Put(part, o, "a"), c) != Body(Put(part, o, "b"), c)
  {
    LayoutsDiffer(o, c.chainOption);
  }

  lemma OnStdout(part: Part, p: Contents, id: string, c: Config, x: string)
    requires DestinationOf(part, p, id, c) == Stdout && x != ""
    ensures var (q, i) := Variant(part, p, id, x);
            Share(Stdout, q, i, c) == Put(part, Share(Stdout, p, id, c), x)
  {}

  /** Nothing goes to the file of a part that is not overwritten after it. */
  lemma NothingLater(part: Part, p: Contents, id: string, c: Config, path: string)
    requires DestinationOf(part, p, id, c) == File(path) && !IsOverwritten(part, p, id, c)
    ensures part != PickupPart ==> !GoesTo(PickupWrites(id, c), path)
    ensures c.allFile == "" ==>
              && (Turn(part, c) < 3 ==> !GoesTo(ChainWrites(p, c), path))
              && (Turn(part, c) < 2 ==> !GoesTo(KeyWrites(p, c), path))
              && (Turn(part, c) < 1 ==> !GoesTo(CsrWrites(p, c), path))
  {
    var there := set later | later in {CsrPart, KeyPart, ChainPart, PickupPart} && IsThere(later, p, id);
    assert IsThere(PickupPart, p, id) <==> PickupPart in there;
    assert IsThere(ChainPart, p, id) <==> ChainPart in there;
    assert IsThere(KeyPart, p, id) <==> KeyPart in there;
    assert IsThere(CsrPart, p, id) <==> CsrPart in there;
  }

  /** The output whose layout is written to the file of a part, but for that part. */
  function OutputAround(part: Part, p: Contents, c: Config): Output {
    if c.allFile != "" then Output(p.certificate, p.csr, p.privateKey, p.chain, "")
    else if part == CertificatePart then Output("", "", "", if c.chainFile == "" then p.chain else [], "")
    else if part == ChainPart && c.chainFile == "" then Output(p.certificate, "", "", [], "")
    else NO_OUTPUT
  }

  lemma InAllFile(part: Part, p: Contents, id: string, c: Config, path: string, x: string)
    requires DestinationOf(part, p, id, c) == File(path) && !GoesTo(PickupWrites(id, c), path)
    requires x != "" && part != PickupPart && c.allFile != ""
    ensures var (q, i) := Variant(part, p, id, x);
            LastTextFor(path, q, i, c) == Some(Body(Put(part, OutputAround(part, p, c), x), c))
  {
    var q := Variant(part, p, id, x).0;
    assert Output(q.certificate, q.csr, q.privateKey, q.chain, "") == Put(part, OutputAround(part, p, c), x);
  }

  /** The output whose layout is written to the file of a part. */
  function OutputWith(part: Part, q: Contents, c: Config): Output {
    match part
    case CsrPart => NO_OUTPUT.(csr := q.csr)
    case KeyPart => NO_OUTPUT.(privateKey := q.privateKey)
    case _ =>
      if part == ChainPart && c.chainFile != "" then NO_OUTPUT.(chain := q.chain)
      else Output(q.certificate, "", "", if c.chainFile == "" then q.chain else [], "")
  }

  lemma OutputWithVariant(part: Part, p: Contents, id: string, c: Config, x: string)
    requires part != PickupPart && c.allFile == ""
    ensures OutputWith(part, Variant(part, p, id, x).0, c) == Put(part, OutputAround(part, p, c), x)
  {}

  lemma InOwnFile(part: Part, p: Contents, id: string, c: Config, path: string)
    requires DestinationOf(part, p, id, c) == File(path) && !GoesTo(PickupWrites(id, c), path)
    requires Turn(part, c) < 3 ==> !GoesTo(ChainWrites(p, c), path)
    requires Turn(part, c) < 2 ==> !GoesTo(KeyWrites(p, c), path)
    requires Turn(part, c) < 1 ==> !GoesTo(CsrWrites(p, c), path)
    requires part != PickupPart && c.allFile == "" && IsThere(part, p, id)
    ensures LastTextFor(path, p, id, c) == Some(Body(OutputWith(part, p, c), c))
  {}

  lemma InFile(part: Part, p: Contents, id: string, c: Config, path: string, x: string)
    requires DestinationOf(part, p, id, c) == File(path) && !IsOverwritten(part, p, id, c)
    requires x != "" && part != PickupPart
    ensures var (q, i) := Variant(part, p, id, x);
            LastTextFor(path, q, i, c) == Some(Body(Put(part, OutputAround(part, p, c), x), c))
  {
    NothingLater(part, p, id, c, path);
    if c.allFile != "" {
      InAllFile(part, p, id, c, path, x);
    } else {
      var (q, i) := Variant(part, p, id, x);
      OutputWithVariant(part, p, id, c, x);
      InOwnFile(part, q, i, c, path);
    }
  }

  lemma LinesDiffer()
    ensures "a" + "\n" != "b" + "\n"
  {
    assert ("a" + "\n")[0] == 'a' && ("b" + "\n")[0] == 'b';
  }

  lemma ShownAt(part: Part, p: Contents, id: string, c: Config, path: string)
    requires DestinationOf(part, p, id, c) == File(path)
    requires !IsDropped(part, p, c) && !IsOverwritten(part, p, id, c)
    ensures var (x, i) := Variant(part, p, id, "a"); var (y, j) := Variant(part, p, id, "b");
            LastTextFor(path, x, i, c) != LastTextFor(path, y, j, c)
  {
    if part == PickupPart {
      LinesDiffer();
    } else {
      InFile(part, p, id, c, path, "a");
      InFile(part, p, id, c, path, "b");
      PutDiffers(part, OutputAround(part, p, c), p, c);
    }
  }

  lemma Shown(part: Part, p: Contents, id: string, c: Config)
    requires !IsDropped(part, p, c) && !IsOverwritten(part, p, id, c)
    ensures var (x, i) := Variant(part, p, id, "a"); var (y, j) := Variant(part, p, id, "b");
            !WrittenAlike(x, i, y, j, c)
  {
    var d := DestinationOf(part, p, id, c);
    if d == Stdout {
      OnStdout(part, p, id, c, "a");
      OnStdout(part, p, id, c, "b");
      PutDiffers(part, Share(Stdout, p, id, c), p, c);
    } else {
      ShownAt(part, p, id, c, d.path);
      assert d.path in Paths(c);
    }
  }

  lemma SameFilesAreWritten(part: Part, p: Contents, id: string, c: Config, path: string)
    ensures var (x, i) := Variant(part, p, id, "a"); var (y, j) := Variant(part, p, id, "b");
            LastTextFor(path, x, i, c).Some? <==> LastTextFor(path, y, j, c).Some?
  {}

  lemma VariantsApart(part: Part, files: map<string, string>, p: Contents, id: string, c: Config)
    requires !IsDropped(part, p, c) && !IsOverwritten(part, p, id, c)
    ensures var (x, i) := Variant(part, p, id, "a"); var (y, j) := Variant(part, p, id, "b");
            && IsVariant(part, p, id, x, i) && IsVariant(part, p, id, y, j)
            && Afterwards(files, x, i, c) != Afterwards(files, y, j, c)
  {
    var (x, i) := Variant(part, p, id, "a");
    var (y, j) := Variant(part, p, id, "b");
    Shown(part, p, id, c);
    forall path | path in Paths(c) ensures LastTextFor(path, x, i, c).Some? <==> LastTextFor(path, y, j, c).Some? {
      SameFilesAreWritten(part, p, id, c, path);
    }
    FoundApart(files, x, i, y, j, c);
  }

  /** When a part is lost, in full: the layout drops it, no output takes it, or another part that is written
      later goes to the same file. */
  lemma IsLostIff(part: Part, files: map<string, string>, p: Contents, id: string, c: Config)
    ensures IsLost(part, files, p, id, c) <==> IsDropped(part, p, c) || IsOverwritten(part, p, id, c)
  {
    if IsDropped(part, p, c) || IsOverwritten(part, p, id, c) {
      forall q, i, r, j | IsVariant(part, p, id, q, i) && IsVariant(part, p, id, r, j)
        ensures Afterwards(files, q, i, c) == Afterwards(files, r, j, c)
      {
        Hidden(part, p, id, c, q, i, r, j);
        FoundAlike(files, q, i, r, j, c);
      }
    } else {
      VariantsApart(part, files, p, id, c);
    }
  }

  /** So one file for the certificate and the key holds the key only, and the certificate is lost. */
  lemma KeyOverwritesCertificate(p: Contents, id: string, c: Config, files: map<string, string>, writable: set<string>)
    requires c.allFile == "" && c.certFile == c.keyFile != "" && p.certificate != "" && p.privateKey != ""
    requires c.keyFile != c.chainFile && c.keyFile != c.pickupIdFile
    requires AllWritable(PlanOf(p, id, c).0, writable)
    ensures var after := Written(files, PlanOf(p, id, c).0, writable);
            c.keyFile in after && after[c.keyFile] == p.privateKey
    ensures IsOverwritten(CertificatePart, p, id, c)
  {
    assert IsThere(KeyPart, p, id);
    FileHoldsLast(files, p, id, c, writable, c.keyFile);
    KeyFileIsTheKey(p, c);
  }

  lemma KeyFileIsTheKey(p: Contents, c: Config)
    ensures Body(NO_OUTPUT.(privateKey := p.privateKey), c) == p.privateKey
  {
    assert Join([], "") == "";
  }

  /** A signing request reaches its file exactly with the root-last chain option; the other two layouts
      leave the file empty. */
  lemma CsrIsKeptIff(p: Contents, id: string, c: Config)
    requires DistinctFiles(c) && c.allFile == "" && c.csrFile != "" && p.csr != ""
    ensures TextFor(c.csrFile, p, id, c) == (if c.chainOption == RootLast then p.csr else "")
    ensures TextFor(c.csrFile, p, id, c) == p.csr <==> c.chainOption == RootLast
  {
    assert Share(File(c.csrFile), p, id, c) == NO_OUTPUT.(csr := p.csr);
    assert Join([], "") == "";
  }

  // ---------- reading a written file ----------

  /** The file for everything, read with the same chain option, gives the collection back but for the
      signing request, and but for what follows the key. */
  lemma AllFileReadsBack(codec: BodyCodec, valid: seq<byte> -> bool, m: Material, id: string, c: Config)
    requires Proper(codec, valid, m.(pickupId := "")) && c.allFile != "" && c.allFile != c.pickupIdFile
    ensures var o := OutputOf(codec, m);
            var p := Contents(o.certificate, o.privateKey, o.chain, o.csr);
            Collected(codec, valid, TextFor(c.allFile, p, id, c), c.chainOption) == Ok(Contents(
              o.certificate,
              if m.key.Some? && c.chainOption == RootLast then o.privateKey + Join(o.chain, "") else o.privateKey,
              if c.chainOption == IgnoreChain then [] else o.chain,
              ""))
  {
    var m', o := m.(pickupId := ""), OutputOf(codec, m.(pickupId := ""));
    TextOfParts(c.allFile, Contents(o.certificate, o.privateKey, o.chain, o.csr), id, c, o);
    WriteThenRead(codec, valid, m', c.chainOption);
    assert AfterKey(codec, m', c.chainOption) == if c.chainOption == RootLast then Join(o.chain, "") else "";
    assert o.privateKey + "" == o.privateKey;
  }

  /** The certificate file, when there is no chain file, gives the certificate and the chain back. */
  lemma CertificateFileReadsBack(codec: BodyCodec, valid: seq<byte> -> bool, m: Material, key: string, csr: string,
                                 id: string, c: Config)
    requires Proper(codec, valid, m) && m.key == None && m.csr == None && m.pickupId == ""
    requires c.allFile == "" && c.certFile != "" && c.chainFile == ""
    requires c.certFile !in [c.csrFile, c.keyFile, c.pickupIdFile]
    ensures var o := OutputOf(codec, m);
            var p := Contents(o.certificate, key, o.chain, csr);
            Collected(codec, valid, TextFor(c.certFile, p, id, c), c.chainOption)
            == Ok(Contents(o.certificate, "", if c.chainOption == IgnoreChain then [] else o.chain, ""))
  {
    var o := OutputOf(codec, m);
    assert o.certificate != "";
    TextOfParts(c.certFile, Contents(o.certificate, key, o.chain, csr), id, c, o);
    WriteThenRead(codec, valid, m, c.chainOption);
  }
}

/**
 * One signing call (`AcmeSHBackend.sign`): where the CSR is staged and the
 * chain is expected, the acme.sh command line and environment, and how the
 * exit status of acme.sh decides the result.
 *
 * The scratch directory, the acme.sh process and the read of the chain
 * file are parameters: `tmpDir` is the directory the call was given, `run`
 * is what acme.sh does with an invocation, `readFile` is the content of a
 * file once acme.sh has finished.
 */
module Signing {
  import opened Wrappers
  import opened Text
  import opened Decimal
  import opened PluginConfig
  import opened Configuration

  /** What acme.sh is started with: its command line, its environment, and
      the CSR staged at `csrFile`. */
  datatype Invocation = Invocation(argv: seq<string>, env: map<string, string>, csrFile: string, csr: seq<bv8>)

  /** The exit status and the combined stdout/stderr text of acme.sh. */
  datatype ProcessResult = ProcessResult(returnCode: int, output: string)

  /** The pair `(certificate, error)` that `sign` returns; `None` is
      Python's `None`. */
  datatype SignOutcome = SignOutcome(certificate: Option<string>, error: Option<string>)

  function CsrPath(tmpDir: string): string {
    tmpDir + "/csr.pem"
  }

  function CertificatesDir(home: string): string {
    home + "/certificates/"
  }

  /** Where acme.sh is told to write the chain: `<home>/certificates/<san>.pem`. */
  function ChainPath(home: string, san: string): (p: string)
    ensures CertificatesDir(home) <= p
    ensures p[|CertificatesDir(home)|..] == san + ".pem"
  {
    CertificatesDir(home) + san + ".pem"
  }

  /** Two calls share a chain file exactly when they share the first
      subject alternative name: the path is keyed by that name alone. */
  lemma ChainPathInjective(home: string, san1: string, san2: string)
    ensures ChainPath(home, san1) == ChainPath(home, san2) <==> san1 == san2
  {
    if ChainPath(home, san1) == ChainPath(home, san2) {
      assert san1 + ".pem" == san2 + ".pem";
      assert san1 == (san1 + ".pem")[..|san1|];
      assert san2 == (san2 + ".pem")[..|san2|];
    }
  }

  /** The values the acme.sh command line carries. */
  datatype Arguments = Arguments(
    binary: string,
    csrFile: string,
    dnsPlugin: string,
    chainFile: string,
    home: string,
    dnsSleep: string,
    debug: bool)

  /** The acme.sh command line, in its fixed order; `--debug` is appended
      last in debug mode and nothing else is ever appended. */
  function BuildArgv(a: Arguments): (argv: seq<string>)
    ensures |argv| == if a.debug then 13 else 12
    ensures argv[0] == a.binary
    ensures argv[1..12] == ["--sign-csr", "--csr", a.csrFile, "--dns", a.dnsPlugin,
      "--fullchain-file", a.chainFile, "--home", a.home, "--dnssleep", a.dnsSleep]
    ensures a.debug ==> argv[12] == "--debug"
  {
    var cmd := [a.binary, "--sign-csr", "--csr", a.csrFile, "--dns", a.dnsPlugin,
      "--fullchain-file", a.chainFile, "--home", a.home, "--dnssleep", a.dnsSleep];
    if a.debug then cmd + ["--debug"] else cmd
  }

  /** Reads a command line of the shape `BuildArgv` produces; anything
      else is rejected. */
  function ParseArgv(argv: seq<string>): Option<Arguments> {
    if (|argv| == 12 || (|argv| == 13 && argv[12] == "--debug"))
      && argv[1] == "--sign-csr" && argv[2] == "--csr" && argv[4] == "--dns"
      && argv[6] == "--fullchain-file" && argv[8] == "--home" && argv[10] == "--dnssleep"
    then
      Some(Arguments(argv[0], argv[3], argv[5], argv[7], argv[9], argv[11], |argv| == 13))
    else
      None
  }

  /** The command line loses nothing: every value, and whether debug mode
      is on, is read back from it. */
  lemma ArgvRoundTrip(a: Arguments)
    ensures ParseArgv(BuildArgv(a)) == Some(a)
  {
  }

  /** The arguments of the call: the CSR staged in the scratch directory,
      the chain keyed by the first subject alternative name. */
  function SignArguments(b: Backend, tmpDir: string, san: string): (a: Arguments)
    ensures a.binary == b.binaryPath && a.home == b.homePath
    ensures a.dnsPlugin == b.dnsPlugin && a.dnsSleep == b.dnsSleepTime && a.debug == b.debugMode
    ensures a.csrFile == CsrPath(tmpDir) && a.chainFile == ChainPath(b.homePath, san)
  {
    Arguments(b.binaryPath, CsrPath(tmpDir), b.dnsPlugin, ChainPath(b.homePath, san),
      b.homePath, b.dnsSleepTime, b.debugMode)
  }

  /** How acme.sh is started for one call. The environment is the parsed
      plugin configuration and nothing else. */
  function SignInvocation(b: Backend, csr: seq<bv8>, tmpDir: string, san: string): (inv: Invocation)
    ensures ParseArgv(inv.argv) == Some(SignArguments(b, tmpDir, san))
    ensures inv.env == ParseDnsPluginConfig(b.dnsPluginConfig)
    ensures inv.csrFile == CsrPath(tmpDir) && inv.csr == csr
  {
    var a := SignArguments(b, tmpDir, san);
    ArgvRoundTrip(a);
    Invocation(BuildArgv(a), ParseDnsPluginConfig(b.dnsPluginConfig), CsrPath(tmpDir), csr)
  }

  /** The fixed text around the exit code in the error of a failed run. */
  const ErrorPrefix := "acme.sh exited with error "
  const OutputSeparator := " and output:\n"

  /** The error text of a failed run: the exit code and the whole output. */
  function ErrorMessage(code: int, output: string): string {
    ErrorPrefix + (IntToString(code) + (OutputSeparator + output))
  }

  /** Reads the exit code and the output back from an error text. The code
      ends at the first space, which is the first character of the
      separator. */
  function ParseErrorMessage(m: string): Option<ProcessResult> {
    if ErrorPrefix <= m then
      var p := Partition(m[|ErrorPrefix|..], ' ');
      if p.found && OutputSeparator[1..] <= p.after then
        match ParseInt(p.before)
        case Some(code) => Some(ProcessResult(code, p.after[|OutputSeparator| - 1..]))
        case None => None
      else
        None
    else
      None
  }

  /** An error text carries the exit code and the complete output: both
      can be recovered from it. */
  lemma {:induction false} ErrorMessageRoundTrip(code: int, output: string)
    ensures ParseErrorMessage(ErrorMessage(code, output)) == Some(ProcessResult(code, output))
  {
    var m := ErrorMessage(code, output);
    var digits := IntToString(code);
    var rest := OutputSeparator[1..] + output;
    assert OutputSeparator + output == [' '] + rest;
    assert m[|ErrorPrefix|..] == digits + ([' '] + rest);
    assert digits + ([' '] + rest) == digits + [' '] + rest;
    PartitionAtFirst(digits, ' ', rest);
    IntToStringRoundTrip(code);
    assert rest[|OutputSeparator| - 1..] == output;
  }

  /** What a successful `ParseErrorMessage` has read: the prefix, a code
      text ending at the first space, and the rest of the separator before
      the output. */
  lemma ParsedPieces(m: string, res: ProcessResult) returns (code: string, after: string)
    requires ParseErrorMessage(m) == Some(res)
    ensures m == ErrorPrefix + (code + [' '] + after)
    ensures ParseInt(code) == Some(res.returnCode)
    ensures after == OutputSeparator[1..] + res.output
  {
    var p := Partition(m[|ErrorPrefix|..], ' ');
    code, after := p.before, p.after;
    assert m == ErrorPrefix + m[|ErrorPrefix|..];
  }

  /** The error text of a result is the only text that reads back as that
      result: a message that parses to (code, output) is exactly the one
      the f-string writes, with the code unpadded. */
  lemma ErrorMessageExact(m: string, res: ProcessResult)
    requires ParseErrorMessage(m) == Some(res)
    ensures m == ErrorMessage(res.returnCode, res.output)
  {
    var code, after := ParsedPieces(m, res);
    ParseIntExact(code, res.returnCode);
    Reassembled(m, code, after, res.output);
  }

  /** The pieces `ParsedPieces` finds put back together: the space the
      partition consumed is the separator's first character. */
  lemma Reassembled(m: string, code: string, after: string, output: string)
    requires m == ErrorPrefix + (code + [' '] + after)
    requires after == OutputSeparator[1..] + output
    ensures m == ErrorPrefix + (code + (OutputSeparator + output))
  {
    var tail := OutputSeparator[1..];
    assert OutputSeparator == [' '] + tail;
    assert code + [' '] + (tail + output) == code + (OutputSeparator + output);
  }

  /** What `sign` does once acme.sh has exited. */
  datatype ExitAction = ReadChain | Fail(message: string)

  /** Exit codes 0 (issued) and 2 (already issued) both lead to reading the
      chain file; any other code is an error whose text carries the code
      and the whole output. */
  function Classify(res: ProcessResult): (a: ExitAction)
    ensures a.ReadChain? <==> res.returnCode == 0 || res.returnCode == 2
    ensures a.Fail? ==> ParseErrorMessage(a.message) == Some(res)
  {
    if res.returnCode == 2 then
      ReadChain
    else if res.returnCode != 0 then
      ErrorMessageRoundTrip(res.returnCode, res.output);
      Fail(ErrorMessage(res.returnCode, res.output))
    else
      ReadChain
  }

  /** `AcmeSHBackend.sign`: exactly one of certificate and error is set;
      on exit code 0 or 2 the certificate is the chain file named after
      the first subject alternative name, otherwise the error carries the
      exit code and the output of acme.sh. */
  function Sign(b: Backend, csr: seq<bv8>, subjectDN: string, subjectAltNames: seq<string>, email: string,
                tmpDir: string, run: Invocation -> ProcessResult, readFile: string -> string): (r: SignOutcome)
    requires |subjectAltNames| > 0
    ensures r.certificate.Some? != r.error.Some?
    ensures var res := run(SignInvocation(b, csr, tmpDir, subjectAltNames[0]));
      && (r.certificate.Some? <==> res.returnCode == 0 || res.returnCode == 2)
      && (r.certificate.Some? ==> r.certificate.value == readFile(ChainPath(b.homePath, subjectAltNames[0])))
      && (r.error.Some? ==> ParseErrorMessage(r.error.value) == Some(res))
  {
    var inv := SignInvocation(b, csr, tmpDir, subjectAltNames[0]);
    match Classify(run(inv))
    case ReadChain => SignOutcome(Some(readFile(ChainPath(b.homePath, subjectAltNames[0]))), None)
    case Fail(message) => SignOutcome(None, Some(message))
  }

  /** Only the first subject alternative name matters, and the subject DN
      and the e-mail address are not used at all. */
  lemma SignUsesFirstSanOnly(b: Backend, csr: seq<bv8>, dn1: string, dn2: string, sans1: seq<string>, sans2: seq<string>,
                             email1: string, email2: string, tmpDir: string,
                             run: Invocation -> ProcessResult, readFile: string -> string)
    requires |sans1| > 0 && |sans2| > 0 && sans1[0] == sans2[0]
    ensures Sign(b, csr, dn1, sans1, email1, tmpDir, run, readFile) == Sign(b, csr, dn2, sans2, email2, tmpDir, run, readFile)
  {
  }

  /** A run that exits with 5 and prints "DNS record not found" is an
      error with exactly the text the f-string prints. */
  lemma FailedRunReported()
    ensures Classify(ProcessResult(5, "DNS record not found"))
      == Fail("acme.sh exited with error " + ("5" + (" and output:\n" + "DNS record not found")))
  {
    assert IntToString(5) == "5";
  }
}

/**
 * The processing service: one run of xml2rfc over a document snapshot.
 *
 * The document text is staged in a temporary XML file, the tool is executed with
 * an HTML output path, the generated HTML is read back, and both temporary files
 * are unlinked on every exit path. The outcome of the tool is classified into a
 * result (possibly a soft failure carrying error details) or a thrown error.
 *
 * Everything outside the process is a parameter: the temporary directory, the two
 * readings of the millisecond clock, the faults of the file operations, and what
 * the tool does on this run: how `exec` settles and the output file it writes.
 */
module Processing {
  import opened JsText
  import opened Constants
  import opened DiagnosticParser

  // ---------------------------------------------------------------------------
  // Errors and results
  // ---------------------------------------------------------------------------

  /** `err.code`: absent, a system error name such as `ENOENT`, or a process exit status. */
  datatype ErrCode = NoCode | Named(name: string) | Exit(status: int)

  /**
   * A thrown JavaScript value, seen through the properties the service reads:
   * whether it is an `Error` instance, `code`, `killed`, `stderr` and `message`.
   */
  datatype JsError = JsError(isError: bool, code: ErrCode, killed: bool, stderr: Option<string>, message: Option<string>)

  /** `new Error(message)`. */
  function NewError(message: string): JsError {
    JsError(true, NoCode, false, None, Some(message))
  }

  /** The completion of a JavaScript call: a returned value or a thrown error. */
  datatype Outcome<T> = Returned(value: T) | Threw(error: JsError)

  /** `{diagnostics, html, errorDetails}` as the service returns it. */
  datatype ProcessingResult = ProcessingResult(diagnostics: seq<Diagnostic>, html: Option<string>, errorDetails: Option<string>)

  const UnknownError: string := "Unknown error occurred"

  const Enoent: ErrCode := Named("ENOENT")

  // ---------------------------------------------------------------------------
  // The environment of one run
  // ---------------------------------------------------------------------------

  /** The command line handed to `child_process.exec`, with its options. */
  datatype ExecRequest = ExecRequest(command: string, timeoutMs: nat, maxBufferBytes: nat)

  /** How `exec` settles: resolved with the captured stderr, or rejected with an error. */
  datatype ExecOutcome = Resolved(stderr: string) | Rejected(err: JsError)

  /** One execution of the tool: how it settles, and the output file it leaves behind, if any. */
  datatype ToolRun = ToolRun(outcome: ExecOutcome, output: Option<string>)

  /**
   * The inputs of one `processDocument` call that come from outside the process:
   * `os.tmpdir()`, the two `Date.now()` readings, a fault of `writeFile`, what the
   * tool does, a fault of `readFile`, and the paths whose `unlink` fails.
   */
  datatype ProcessIo = ProcessIo(
    tmpdir: string,
    xmlClock: nat,
    htmlClock: nat,
    writeFault: Option<JsError>,
    tool: ToolRun,
    readFault: Option<JsError>,
    unlinkFaults: set<string>)

  /**
   * `${os.tmpdir()}/xml2rfc-${Date.now()}.${ext}`: the clock reading can be read
   * back, as a decimal number, from between the prefix and the extension.
   */
  function TempFilePath(tmpdir: string, now: nat, ext: string): (p: string)
    ensures var start := |tmpdir| + 1 + |TempFilePrefix| + 1;
      && start <= |p| - |ext| - 1
      && AllDigits(p[start..|p| - |ext| - 1]) && DigitsValue(p[start..|p| - |ext| - 1]) == now
  {
    var head := tmpdir + "/" + TempFilePrefix + "-";
    var digits := NatToString(now);
    MiddleOfConcat(head, digits, "." + ext);
    NatToStringRoundTrip(now);
    head + digits + ("." + ext)
  }

  lemma MiddleOfConcat(a: string, m: string, b: string)
    ensures (a + m + b)[|a|..|a + m + b| - |b|] == m
  {
  }

  /** Runs that read different clock values use different paths for the same extension. */
  lemma TempPathsDistinctClocks(tmpdir: string, a: nat, b: nat, ext: string)
    requires a != b
    ensures TempFilePath(tmpdir, a, ext) != TempFilePath(tmpdir, b, ext)
  {
  }

  /** A temporary path lies in the temporary directory, starts with the prefix and ends with the extension. */
  lemma TempFilePathShape(tmpdir: string, now: nat, ext: string)
    ensures var p := TempFilePath(tmpdir, now, ext);
      && p[..|tmpdir| + 1 + |TempFilePrefix| + 1] == tmpdir + "/" + TempFilePrefix + "-"
      && EndsWith(p, "." + ext)
  {
    var p := TempFilePath(tmpdir, now, ext);
    var head := tmpdir + "/" + TempFilePrefix + "-";
    assert p == head + (NatToString(now) + "." + ext);
    assert p == (head + NatToString(now)) + ("." + ext);
  }

  function XmlPath(io: ProcessIo): string {
    TempFilePath(io.tmpdir, io.xmlClock, "xml")
  }

  function HtmlPath(io: ProcessIo): string {
    TempFilePath(io.tmpdir, io.htmlClock, "html")
  }

  /** The input and output files never collide, whatever the two clock readings are. */
  lemma TempPathsDiffer(tmpdir: string, a: nat, b: nat)
    ensures TempFilePath(tmpdir, a, "xml") != TempFilePath(tmpdir, b, "html")
  {
    var x := TempFilePath(tmpdir, a, "xml");
    var h := TempFilePath(tmpdir, b, "html");
    TempFilePathShape(tmpdir, a, "xml");
    TempFilePathShape(tmpdir, b, "html");
    assert x[|x| - 4] == ".xml"[0];
    assert h[|h| - 4] == "html"[0] by {
      assert h[|h| - 5..] == ".html";
    }
  }

  /** `xml2rfc --no-dtd --no-network --html --out "<html>" "<xml>"` with the configured limits. */
  function Xml2rfcRequest(xmlPath: string, htmlPath: string): ExecRequest {
    ExecRequest(
      "xml2rfc --no-dtd --no-network --html --out \"" + htmlPath + "\" \"" + xmlPath + "\"",
      TimeoutMs,
      MaxBufferBytes)
  }

  // ---------------------------------------------------------------------------
  // The file system
  // ---------------------------------------------------------------------------

  /** The error `fs.readFile` rejects with for a missing path. */
  function NotFound(path: string): (e: JsError)
    ensures e.isError && e.code == Enoent && !e.killed && e.stderr == None
  {
    JsError(true, Enoent, false, None, Some("ENOENT: no such file or directory, open '" + path + "'"))
  }

  /** `readFile(path, "utf8")`: an injected fault first, then a missing file, then the contents. */
  function ReadSpec(files: map<string, string>, path: string, fault: Option<JsError>): (r: Outcome<string>)
    ensures r.Returned? <==> fault.None? && path in files
    ensures r.Returned? ==> r.value == files[path]
    ensures fault.None? && path !in files ==> r == Threw(NotFound(path))
  {
    if fault.Some? then Threw(fault.value)
    else if path in files then Returned(files[path])
    else Threw(NotFound(path))
  }

  /** The files after the tool has written its output, if it wrote any. */
  function WithOutput(files: map<string, string>, path: string, output: Option<string>): map<string, string> {
    if output.Some? then files[path := output.value] else files
  }

  /** The temporary directory as a map from path to contents. */
  class FileSystem {
    var files: map<string, string>

    constructor(files: map<string, string>)
      ensures this.files == files
    {
      this.files := files;
    }

    /** `writeFile(path, data, "utf8")`: rejected with the fault, if any, and otherwise stored. */
    method WriteFile(path: string, data: string, fault: Option<JsError>) returns (err: Option<JsError>)
      modifies this
      ensures err == fault
      ensures files == if fault.None? then old(files)[path := data] else old(files)
    {
      err := fault;
      if fault.None? {
        files := files[path := data];
      }
    }

    method ReadFile(path: string, fault: Option<JsError>) returns (r: Outcome<string>)
      ensures r == ReadSpec(files, path, fault)
    {
      if fault.Some? {
        return Threw(fault.value);
      }
      if path !in files {
        return Threw(NotFound(path));
      }
      r := Returned(files[path]);
    }

    /** `unlink(path)`: removes the path unless the operation fails; a missing path fails with ENOENT. */
    method Unlink(path: string, fails: bool) returns (err: Option<JsError>)
      modifies this
      ensures files == if fails then old(files) else old(files) - {path}
      ensures err.None? <==> !fails && path in old(files)
    {
      if fails {
        return Some(NewError("EPERM: operation not permitted, unlink '" + path + "'"));
      }
      if path !in files {
        return Some(JsError(true, Enoent, false, None, Some("ENOENT: no such file or directory, unlink '" + path + "'")));
      }
      files := files - {path};
      err := None;
    }
  }

  // ---------------------------------------------------------------------------
  // Classification
  // ---------------------------------------------------------------------------

  /**
   * The `catch` of `_executeXml2rfc`: ENOENT is "command not found" before a killed
   * process is a timeout; anything else is a soft failure that carries the
   * diagnostics of `err.stderr` and the first non-empty of stderr, message and a
   * fixed fallback as its details.
   */
  function ClassifyFailure(err: JsError): (o: Outcome<ProcessingResult>)
    ensures err.code == Enoent ==> o == Threw(NewError(CommandNotFoundError))
    ensures err.code != Enoent && err.killed ==> o == Threw(NewError(TimeoutError))
    ensures o.Returned? <==> err.code != Enoent && !err.killed
    ensures o.Returned? ==>
      && o.value.html == None
      && o.value.diagnostics == Parse(OrElse(err.stderr, ""))
      && o.value.errorDetails == Some(OrElse(err.stderr, OrElse(err.message, UnknownError)))
  {
    var diagnostics := Parse(OrElse(err.stderr, ""));
    if err.code == Enoent then Threw(NewError(CommandNotFoundError))
    else if err.killed then Threw(NewError(TimeoutError))
    else Returned(ProcessingResult(diagnostics, None, Some(OrElse(err.stderr, OrElse(err.message, UnknownError)))))
  }

  /** The details of a soft failure are never empty: the fallback message is not. */
  lemma SoftFailureHasDetails(err: JsError)
    requires ClassifyFailure(err).Returned?
    ensures ClassifyFailure(err).value.errorDetails.Some?
    ensures ClassifyFailure(err).value.errorDetails.value != ""
  {
    assert UnknownError[0] == 'U';
  }

  /** `_normalizeError`: an `Error` passes through; anything else becomes one. */
  function NormalizeError(e: JsError): (r: JsError)
    ensures r.isError
    ensures e.isError ==> r == e
    ensures !e.isError ==> r == NewError(OrElse(e.message, InvalidOutputError))
  {
    if e.isError then e else NewError(OrElse(e.message, InvalidOutputError))
  }

  lemma NormalizeIdempotent(e: JsError)
    ensures NormalizeError(NormalizeError(e)) == NormalizeError(e)
  {
  }

  // ---------------------------------------------------------------------------
  // Specification of one run
  // ---------------------------------------------------------------------------

  /**
   * `_executeXml2rfc`: a resolved run has its stderr parsed and the output read;
   * a rejected run, and a failed read, go through the same classification.
   */
  function ExecSpec(files: map<string, string>, xmlPath: string, htmlPath: string, io: ProcessIo): Outcome<ProcessingResult> {
    var run := io.tool;
    match run.outcome
    case Rejected(err) => ClassifyFailure(err)
    case Resolved(stderr) =>
      match ReadSpec(WithOutput(files, htmlPath, run.output), htmlPath, io.readFault)
      case Threw(err) => ClassifyFailure(err)
      case Returned(html) => Returned(ProcessingResult(Parse(stderr), Some(html), None))
  }

  /** The outcome of `processDocument(text)`. */
  function ProcessOutcome(files: map<string, string>, text: string, io: ProcessIo): Outcome<ProcessingResult> {
    if io.writeFault.Some? then Threw(NormalizeError(io.writeFault.value))
    else
      match ExecSpec(files[XmlPath(io) := text], XmlPath(io), HtmlPath(io), io)
      case Returned(r) => Returned(r)
      case Threw(e) => Threw(NormalizeError(e))
  }

  /** The files before the cleanup: the staged input and the tool's output, when they were written. */
  function StagedFiles(files: map<string, string>, text: string, io: ProcessIo): map<string, string> {
    if io.writeFault.Some? then files
    else
      var written := files[XmlPath(io) := text];
      WithOutput(written, HtmlPath(io), io.tool.output)
  }

  /** The paths the cleanup manages to unlink. */
  function Unlinked(paths: seq<string>, faults: set<string>): set<string> {
    set p | p in paths && p !in faults
  }

  /** The files after `processDocument(text)`. */
  function ProcessFiles(files: map<string, string>, text: string, io: ProcessIo): map<string, string> {
    StagedFiles(files, text, io) - Unlinked([XmlPath(io), HtmlPath(io)], io.unlinkFaults)
  }

  // ---------------------------------------------------------------------------
  // The service
  // ---------------------------------------------------------------------------

  /** The shared `catch` of `_executeXml2rfc`. */
  method RecoverFromFailure(err: JsError) returns (o: Outcome<ProcessingResult>)
    ensures o == ClassifyFailure(err)
  {
    var diagnostics := ParseDiagnostics(OrElse(err.stderr, ""));
    if err.code == Enoent {
      return Threw(NewError(CommandNotFoundError));
    } else if err.killed {
      return Threw(NewError(TimeoutError));
    }
    var errorDetails := OrElse(err.stderr, OrElse(err.message, UnknownError));
    o := Returned(ProcessingResult(diagnostics, None, Some(errorDetails)));
  }

  /**
   * `_executeXml2rfc(xmlPath, htmlPath)`: the tool is started with the request
   * returned alongside the outcome, and may write its output; nothing else changes.
   */
  method ExecuteXml2rfc(fs: FileSystem, xmlPath: string, htmlPath: string, io: ProcessIo) returns (o: Outcome<ProcessingResult>, request: ExecRequest)
    modifies fs
    ensures o == ExecSpec(old(fs.files), xmlPath, htmlPath, io)
    ensures request == Xml2rfcRequest(xmlPath, htmlPath)
    ensures fs.files == WithOutput(old(fs.files), htmlPath, io.tool.output)
  {
    request := Xml2rfcRequest(xmlPath, htmlPath);
    var run := io.tool;
    if run.output.Some? {
      fs.files := fs.files[htmlPath := run.output.value];
    }
    match run.outcome {
      case Rejected(err) =>
        o := RecoverFromFailure(err);
      case Resolved(stderr) =>
        var diagnostics := ParseDiagnostics(stderr);
        var html := fs.ReadFile(htmlPath, io.readFault);
        match html {
          case Threw(err) =>
            o := RecoverFromFailure(err);
          case Returned(h) =>
            o := Returned(ProcessingResult(diagnostics, Some(h), None));
        }
    }
  }

  /** `_cleanupFiles(...paths)`: every path is unlinked and every failure swallowed. */
  method CleanupFiles(fs: FileSystem, paths: seq<string>, faults: set<string>)
    modifies fs
    ensures fs.files == old(fs.files) - Unlinked(paths, faults)
  {
    for i := 0 to |paths|
      invariant fs.files == old(fs.files) - Unlinked(paths[..i], faults)
    {
      var _ := fs.Unlink(paths[i], paths[i] in faults);
      assert Unlinked(paths[..i + 1], faults) == Unlinked(paths[..i], faults) + (if paths[i] in faults then {} else {paths[i]}) by {
        assert paths[..i + 1] == paths[..i] + [paths[i]];
      }
    }
    assert paths[..|paths|] == paths;
  }

  /**
   * `processDocument(document, onDiagnostics)`. Besides the outcome it returns
   * the sequence of arguments `onDiagnostics` was called with.
   */
  method ProcessDocument(fs: FileSystem, text: string, io: ProcessIo) returns (o: Outcome<ProcessingResult>, delivered: seq<seq<Diagnostic>>)
    modifies fs
    ensures o == ProcessOutcome(old(fs.files), text, io)
    ensures delivered == if o.Returned? then [o.value.diagnostics] else []
    ensures fs.files == ProcessFiles(old(fs.files), text, io)
  {
    var xmlPath := TempFilePath(io.tmpdir, io.xmlClock, "xml");
    var htmlPath := TempFilePath(io.tmpdir, io.htmlClock, "html");
    delivered := [];
    var written := fs.WriteFile(xmlPath, text, io.writeFault);
    if written.Some? {
      o := Threw(NormalizeError(written.value));
    } else {
      var result, _ := ExecuteXml2rfc(fs, xmlPath, htmlPath, io);
      if result.Returned? {
        delivered := delivered + [result.value.diagnostics];
        o := result;
      } else {
        o := Threw(NormalizeError(result.error));
      }
    }
    CleanupFiles(fs, [xmlPath, htmlPath], io.unlinkFaults);
  }

  // ---------------------------------------------------------------------------
  // Properties
  // ---------------------------------------------------------------------------

  /**
   * When neither unlink fails, the run leaves exactly the files it found, minus
   * the two temporary paths: nothing it staged survives and nothing else is touched.
   */
  lemma CleanupRemovesTempFiles(files: map<string, string>, text: string, io: ProcessIo)
    requires XmlPath(io) !in io.unlinkFaults && HtmlPath(io) !in io.unlinkFaults
    ensures ProcessFiles(files, text, io) == files - {XmlPath(io), HtmlPath(io)}
  {
    var gone := Unlinked([XmlPath(io), HtmlPath(io)], io.unlinkFaults);
    assert gone == {XmlPath(io), HtmlPath(io)} by {
      assert XmlPath(io) in gone && HtmlPath(io) in gone;
    }
    var staged := StagedFiles(files, text, io);
    assert staged.Keys - gone == files.Keys - gone;
    forall p | p in files.Keys - gone ensures staged[p] == files[p] { }
  }

  /** A thrown outcome always carries an `Error` instance; a returned one has HTML exactly when it has no error details. */
  lemma OutcomeShape(files: map<string, string>, text: string, io: ProcessIo)
    ensures var o := ProcessOutcome(files, text, io);
      && (o.Threw? ==> o.error.isError)
      && (o.Returned? ==> (o.value.html.Some? <==> o.value.errorDetails.None?))
      && (o.Returned? && o.value.errorDetails.Some? ==> o.value.errorDetails.value != "")
  {
    var o := ProcessOutcome(files, text, io);
    if io.writeFault.None? {
      var xml := XmlPath(io);
      var html := HtmlPath(io);
      var staged := files[xml := text];
      var run := io.tool;
      match run.outcome {
        case Rejected(err) =>
          if ClassifyFailure(err).Returned? { SoftFailureHasDetails(err); }
        case Resolved(stderr) =>
          match ReadSpec(WithOutput(staged, html, run.output), html, io.readFault) {
            case Threw(err) =>
              if ClassifyFailure(err).Returned? { SoftFailureHasDetails(err); }
            case Returned(_) =>
          }
      }
    }
  }

  /** A successful run hands back the parsed stderr together with the generated HTML. */
  lemma SuccessfulRun(files: map<string, string>, text: string, io: ProcessIo, stderr: string, html: string)
    requires io.writeFault.None? && io.readFault.None?
    requires io.tool == ToolRun(Resolved(stderr), Some(html))
    ensures ProcessOutcome(files, text, io) == Returned(ProcessingResult(Parse(stderr), Some(html), None))
  {
  }

  /**
   * A tool that exits cleanly without writing its output file is reported as a
   * missing command: the ENOENT of the read is mistaken for the ENOENT of exec.
   */
  lemma MissingOutputIsCommandNotFound(files: map<string, string>, text: string, io: ProcessIo, stderr: string)
    requires io.writeFault.None? && io.readFault.None?
    requires HtmlPath(io) !in files
    requires io.tool == ToolRun(Resolved(stderr), None)
    ensures ProcessOutcome(files, text, io) == Threw(NewError(CommandNotFoundError))
  {
    TempPathsDiffer(io.tmpdir, io.xmlClock, io.htmlClock);
    assert HtmlPath(io) !in files[XmlPath(io) := text];
  }

  /**
   * A read failure other than ENOENT after a clean exit is a soft failure whose
   * diagnostics come from the read error, which has no stderr: the diagnostics of
   * the tool's own stderr are dropped, however many there were.
   */
  lemma ReadFailureDropsDiagnostics(files: map<string, string>, text: string, io: ProcessIo, stderr: string, e: JsError)
    requires io.writeFault.None? && io.readFault == Some(e)
    requires e.code != Enoent && !e.killed && e.stderr == None
    requires io.tool.outcome == Resolved(stderr)
    ensures ProcessOutcome(files, text, io) == Returned(ProcessingResult([], None, Some(OrElse(e.message, UnknownError))))
  {
    ParseEmpty();
  }

  /** A failed write is rethrown as it is, and the tool is not consulted. */
  lemma WriteFailurePropagates(files: map<string, string>, text: string, io: ProcessIo, e: JsError)
    requires io.writeFault == Some(e) && e.isError
    ensures ProcessOutcome(files, text, io) == Threw(e)
    ensures StagedFiles(files, text, io) == files
  {
  }
}

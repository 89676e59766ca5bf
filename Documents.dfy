/**
 * The state of one tracked document: the last content snapshot, what the XML
 * parser made of it, whether a run of xml2rfc is in flight, the last result, and
 * the single debounce timer that schedules the next run.
 *
 * The XML parser is foreign code: what it makes of the text (a parsed document
 * or a thrown error) is a parameter of the update that stores the text. A timer is a token (its number) that `Fire` consumes;
 * the ghost set `pendingTimers` holds the timers that have been set and neither
 * cleared nor fired, so "no timer is ever leaked" is the invariant that this set
 * is exactly the one the `processingTimer` field refers to.
 */
module Documents {
  import opened JsText
  import opened Constants
  import opened DiagnosticParser
  import opened Processing
  import opened Preview

  // ---------------------------------------------------------------------------
  // XML validation
  // ---------------------------------------------------------------------------

  /** What a DOM exposes to the validation: the root element's tag and the tags of all elements. */
  datatype XmlDocument = XmlDocument(rootTag: Option<string>, elementTags: seq<string>)

  /** `new DOMParser().parseFromString(content, "text/xml")`: a document, or a thrown error. */
  datatype ParseAttempt = ParseThrew | Parsed(doc: XmlDocument)

  /** `{isValid, isRfc, parsedDoc}`. */
  datatype XmlValidation = XmlValidation(isValid: bool, isRfc: bool, parsedDoc: Option<XmlDocument>)

  /**
   * `_parseAndValidateXML(content)`, given what the parser made of the content:
   * valid exactly when it returned a document without a `parsererror` element,
   * and RFC XML exactly when that valid document's root element is `rfc`.
   */
  function ParseAndValidateXml(parse: ParseAttempt): (v: XmlValidation)
    ensures v.isValid <==> parse.Parsed? && ParserErrorTag !in parse.doc.elementTags
    ensures v.isRfc <==> v.isValid && parse.doc.rootTag == Some(RfcRootElement)
    ensures v.isValid ==> v.parsedDoc == Some(parse.doc)
    ensures !v.isValid ==> v.parsedDoc == None
  {
    match parse
    case ParseThrew => XmlValidation(false, false, None)
    case Parsed(doc) =>
      if ParserErrorTag in doc.elementTags then XmlValidation(false, false, None)
      else XmlValidation(true, doc.rootTag == Some(RfcRootElement), Some(doc))
  }

  /** Invalid XML is never RFC XML: a failed parse clears both flags. */
  lemma RfcImpliesValid(parse: ParseAttempt)
    ensures ParseAndValidateXml(parse).isRfc ==> ParseAndValidateXml(parse).isValid
  {
  }

  // ---------------------------------------------------------------------------
  // File names
  // ---------------------------------------------------------------------------

  function StripTrailingSlashes(p: string): string {
    if p != [] && p[|p| - 1] == '/' then StripTrailingSlashes(p[..|p| - 1]) else p
  }

  /** The part of `p` after its last `/`. */
  function AfterLastSlash(p: string): string {
    if p == [] || p[|p| - 1] == '/' then [] else AfterLastSlash(p[..|p| - 1]) + [p[|p| - 1]]
  }

  /**
   * `path.basename(fileName)` for POSIX paths: the last segment after trailing
   * slashes are dropped.
   */
  function Basename(fileName: string): string {
    AfterLastSlash(StripTrailingSlashes(fileName))
  }

  /** Stripping keeps a prefix that does not end in `/`, and drops only slashes. */
  lemma {:induction false} StripTrailingSlashesShape(p: string)
    ensures var r := StripTrailingSlashes(p);
      |r| <= |p| && r == p[..|r|]
      && (r == [] || r[|r| - 1] != '/')
      && forall k :: |r| <= k < |p| ==> p[k] == '/'
  {
    if p != [] && p[|p| - 1] == '/' {
      StripTrailingSlashesShape(p[..|p| - 1]);
    }
  }

  /** The part after the last slash holds no `/`, ends `p`, and is all of `p` or follows a `/`. */
  lemma {:induction false} AfterLastSlashShape(p: string)
    ensures var b := AfterLastSlash(p);
      '/' !in b && EndsWith(p, b) && (|b| < |p| ==> p[|p| - |b| - 1] == '/')
  {
    if p != [] && p[|p| - 1] != '/' {
      var q := p[..|p| - 1];
      AfterLastSlashShape(q);
      var b := AfterLastSlash(p);
      assert b == AfterLastSlash(q) + [p[|p| - 1]];
      assert p[|p| - |b|..] == q[|q| - |AfterLastSlash(q)|..] + [p[|p| - 1]];
    }
  }

  /**
   * The base name holds no `/`; it ends the path once trailing slashes are
   * dropped, and it is the whole of that path or is preceded there by a `/`.
   */
  lemma BasenameShape(fileName: string)
    ensures var t := StripTrailingSlashes(fileName);
      var b := Basename(fileName);
      '/' !in b && EndsWith(t, b) && (|b| < |t| ==> t[|t| - |b| - 1] == '/')
  {
    AfterLastSlashShape(StripTrailingSlashes(fileName));
  }

  /** A name without a directory is its own base name. */
  lemma {:induction false} BasenameOfPlainName(name: string)
    requires '/' !in name
    ensures Basename(name) == name
  {
    assert StripTrailingSlashes(name) == name;
    PlainAfterLastSlash(name);
  }

  lemma {:induction false} PlainAfterLastSlash(name: string)
    requires '/' !in name
    ensures AfterLastSlash(name) == name
  {
    if name != [] {
      assert '/' !in name[..|name| - 1];
      PlainAfterLastSlash(name[..|name| - 1]);
      assert name == name[..|name| - 1] + [name[|name| - 1]];
    }
  }

  // ---------------------------------------------------------------------------
  // The document state
  // ---------------------------------------------------------------------------

  class DocumentState {
    const uri: string
    const fileName: string
    /** Whether an `onProcessingNeeded` callback was supplied. */
    const hasCallback: bool

    var lastContent: Option<string>
    var isValidXml: bool
    var isRfcXml: bool
    var parsedDoc: Option<XmlDocument>
    var isProcessing: bool
    var lastProcessingError: Option<JsError>
    var lastDiagnostics: seq<Diagnostic>
    var processingTimer: Option<nat>
    var previewPanel: Panel?
    var cachedHtml: Option<string>

    /** The number of timers set so far; the next timer gets this number. */
    var timersSet: nat
    ghost var pendingTimers: set<nat>
    /** What the parser made of the last content. */
    ghost var lastParse: ParseAttempt

    /** No timer is leaked: the pending timers are exactly the one the field refers to, and it was set with a callback. */
    ghost predicate TimersTracked()
      reads this
    {
      && pendingTimers == (if processingTimer.Some? then {processingTimer.value} else {})
      && (processingTimer.Some? ==> hasCallback && processingTimer.value < timersSet)
    }

    /**
     * No timer is leaked, the flags agree with each other, a cached page is never
     * empty, and the flags are what the parser makes of the last content.
     */
    ghost predicate Valid()
      reads this
    {
      && TimersTracked()
      && (isRfcXml ==> isValidXml)
      && (parsedDoc.Some? ==> isValidXml)
      && (cachedHtml.Some? ==> cachedHtml.value != "")
      && (lastContent.Some? ==> ParseAndValidateXml(lastParse) == XmlValidation(isValidXml, isRfcXml, parsedDoc))
    }

    /** The state is consistent, was made with the scheduling callback, and belongs to `u`. */
    ghost predicate FiledUnder(u: string)
      reads this
    {
      uri == u && hasCallback && Valid()
    }

    /**
     * `shouldProcess()`: the content is valid RFC XML. In a consistent state that
     * is exactly what the parser made of the last content.
     */
    predicate ShouldProcess()
      reads this
      ensures Valid() ==> (ShouldProcess() <==> isRfcXml)
      ensures Valid() && lastContent.Some? ==> (ShouldProcess() <==> ParseAndValidateXml(lastParse).isRfc)
    {
      isValidXml && isRfcXml
    }

    /**
     * `needsProcessing()`: valid RFC XML, no cached HTML, and no run in flight. In a
     * consistent state a cached page is never empty, so "no cached HTML" is `None`.
     */
    predicate NeedsProcessing()
      reads this
      ensures Valid() ==> (NeedsProcessing() <==> isValidXml && isRfcXml && cachedHtml == None && !isProcessing)
    {
      ShouldProcess() && !Truthy(cachedHtml) && !isProcessing
    }

    /** `new DocumentState(document, onProcessingNeeded)`: the fields start empty and the document is taken in. */
    constructor(uri: string, fileName: string, content: string, parse: ParseAttempt, hasCallback: bool)
      ensures Valid()
      ensures this.uri == uri && this.fileName == Basename(fileName)
      ensures this.hasCallback == hasCallback
      ensures lastContent == Some(content)
      ensures XmlValidation(isValidXml, isRfcXml, parsedDoc) == ParseAndValidateXml(parse)
      ensures !isProcessing && lastProcessingError == None && lastDiagnostics == []
      ensures previewPanel == null && cachedHtml == None
      ensures processingTimer.Some? <==> hasCallback && ShouldProcess()
    {
      this.uri := uri;
      this.fileName := Basename(fileName);
      this.hasCallback := hasCallback;
      lastContent := None;
      isValidXml := false;
      isRfcXml := false;
      parsedDoc := None;
      isProcessing := false;
      lastProcessingError := None;
      lastDiagnostics := [];
      processingTimer := None;
      previewPanel := null;
      cachedHtml := None;
      timersSet := 0;
      pendingTimers := {};
      lastParse := ParseThrew;
      new;
      UpdateFromDocument(content, parse);
    }

    /**
     * `updateFromDocument(document)`. The pending timer is cleared first, always.
     * Identical content changes nothing else; new content is parsed and validated,
     * the cache is invalidated, and a fresh timer is set exactly when processing is
     * needed and a callback exists. `parse` is what the parser makes of `content`;
     * it is not consulted when the content is unchanged.
     */
    method UpdateFromDocument(content: string, parse: ParseAttempt)
      requires Valid()
      modifies this
      ensures Valid()
      ensures old(processingTimer).Some? ==> old(processingTimer).value !in pendingTimers
      ensures lastContent == Some(content)
      ensures old(lastContent) != Some(content) ==>
        XmlValidation(isValidXml, isRfcXml, parsedDoc) == ParseAndValidateXml(parse)
      ensures old(lastContent) == Some(content) ==>
        isValidXml == old(isValidXml) && isRfcXml == old(isRfcXml) && parsedDoc == old(parsedDoc)
      ensures cachedHtml == if old(lastContent) == Some(content) then old(cachedHtml) else None
      ensures isProcessing == old(isProcessing) && lastProcessingError == old(lastProcessingError)
      ensures lastDiagnostics == old(lastDiagnostics) && previewPanel == old(previewPanel)
      ensures processingTimer.Some? <==> old(lastContent) != Some(content) && NeedsProcessing() && hasCallback
      ensures processingTimer.Some? ==> processingTimer.value == old(timersSet)
    {
      ClearTimer();
      if lastContent == Some(content) {
        return;
      }
      lastContent := Some(content);
      ParseAndComputeState(content, parse);
      InvalidateCache();
      if NeedsProcessing() && hasCallback {
        processingTimer := Some(timersSet);
        pendingTimers := pendingTimers + {timersSet};
        timersSet := timersSet + 1;
      }
    }

    /** `_parseAndComputeState(content)`: the flags are set from the validation of the content just stored. */
    method ParseAndComputeState(content: string, parse: ParseAttempt)
      requires TimersTracked() && (cachedHtml.Some? ==> cachedHtml.value != "") && lastContent == Some(content)
      modifies this
      ensures Valid()
      ensures XmlValidation(isValidXml, isRfcXml, parsedDoc) == ParseAndValidateXml(parse)
      ensures lastContent == old(lastContent) && isProcessing == old(isProcessing)
      ensures lastProcessingError == old(lastProcessingError) && lastDiagnostics == old(lastDiagnostics)
      ensures processingTimer == old(processingTimer) && previewPanel == old(previewPanel) && cachedHtml == old(cachedHtml)
      ensures timersSet == old(timersSet) && pendingTimers == old(pendingTimers)
    {
      lastParse := parse;
      var validation := ParseAndValidateXml(parse);
      isValidXml := validation.isValid;
      isRfcXml := validation.isRfc;
      parsedDoc := validation.parsedDoc;
    }

    /** `_invalidateCache()`. */
    method InvalidateCache()
      requires Valid()
      modifies this
      ensures Valid() && cachedHtml == None
      ensures lastContent == old(lastContent) && isValidXml == old(isValidXml) && isRfcXml == old(isRfcXml)
      ensures parsedDoc == old(parsedDoc) && isProcessing == old(isProcessing)
      ensures lastProcessingError == old(lastProcessingError) && lastDiagnostics == old(lastDiagnostics)
      ensures processingTimer == old(processingTimer) && previewPanel == old(previewPanel)
      ensures timersSet == old(timersSet) && pendingTimers == old(pendingTimers)
    {
      cachedHtml := None;
    }

    /** `clearTimeout(processingTimer)` and drop the field. */
    method ClearTimer()
      requires Valid()
      modifies this
      ensures Valid() && pendingTimers == {} && processingTimer == None && timersSet == old(timersSet)
      ensures lastContent == old(lastContent) && isValidXml == old(isValidXml) && isRfcXml == old(isRfcXml)
      ensures parsedDoc == old(parsedDoc) && isProcessing == old(isProcessing)
      ensures lastProcessingError == old(lastProcessingError) && lastDiagnostics == old(lastDiagnostics)
      ensures previewPanel == old(previewPanel) && cachedHtml == old(cachedHtml)
    {
      if processingTimer.Some? {
        pendingTimers := pendingTimers - {processingTimer.value};
        processingTimer := None;
      }
    }

    /** `startProcessing()`. */
    method StartProcessing()
      requires Valid()
      modifies this
      ensures Valid()
      ensures isProcessing && lastProcessingError == None
      ensures lastContent == old(lastContent) && isValidXml == old(isValidXml) && isRfcXml == old(isRfcXml)
      ensures parsedDoc == old(parsedDoc) && lastDiagnostics == old(lastDiagnostics)
      ensures processingTimer == old(processingTimer) && previewPanel == old(previewPanel) && cachedHtml == old(cachedHtml)
    {
      isProcessing := true;
      lastProcessingError := None;
    }

    /** `finishProcessing(error, html)`: the HTML is cached only when it is non-empty and there is no error. */
    method FinishProcessing(error: Option<JsError>, html: Option<string>)
      requires Valid()
      modifies this
      ensures Valid()
      ensures !isProcessing && lastProcessingError == error
      ensures cachedHtml == if Truthy(html) && error.None? then html else old(cachedHtml)
      ensures lastContent == old(lastContent) && isValidXml == old(isValidXml) && isRfcXml == old(isRfcXml)
      ensures parsedDoc == old(parsedDoc) && lastDiagnostics == old(lastDiagnostics)
      ensures processingTimer == old(processingTimer) && previewPanel == old(previewPanel)
    {
      isProcessing := false;
      lastProcessingError := error;
      if Truthy(html) && error.None? {
        cachedHtml := html;
      }
    }

    /** `setPreviewPanel(panel)`. */
    method SetPreviewPanel(panel: Panel?)
      requires Valid()
      modifies this
      ensures Valid()
      ensures previewPanel == panel
      ensures lastContent == old(lastContent) && isValidXml == old(isValidXml) && isRfcXml == old(isRfcXml)
      ensures parsedDoc == old(parsedDoc) && isProcessing == old(isProcessing)
      ensures lastProcessingError == old(lastProcessingError) && lastDiagnostics == old(lastDiagnostics)
      ensures processingTimer == old(processingTimer) && cachedHtml == old(cachedHtml)
    {
      previewPanel := panel;
    }

    /** `updatePreviewPanel(html)`: the panel, if any, shows the HTML; the state is untouched. */
    method UpdatePreviewPanel(html: string)
      modifies previewPanel
      ensures previewPanel != null ==> previewPanel.html == html && previewPanel.disposed == old(previewPanel.disposed)
    {
      if previewPanel != null {
        previewPanel.html := html;
      }
    }

    /** `revealPreviewPanel()`: true exactly when there is a panel. */
    method RevealPreviewPanel() returns (revealed: bool)
      ensures revealed <==> previewPanel != null
    {
      revealed := previewPanel != null;
    }

    /**
     * The pending timer elapses: the field is cleared, and the caller then invokes
     * the callback once. A cleared timer cannot fire.
     */
    method Fire()
      requires Valid() && processingTimer.Some?
      modifies this
      ensures Valid() && pendingTimers == {} && processingTimer == None
      ensures lastContent == old(lastContent) && isValidXml == old(isValidXml) && isRfcXml == old(isRfcXml)
      ensures parsedDoc == old(parsedDoc) && isProcessing == old(isProcessing)
      ensures lastProcessingError == old(lastProcessingError) && lastDiagnostics == old(lastDiagnostics)
      ensures previewPanel == old(previewPanel) && cachedHtml == old(cachedHtml)
    {
      pendingTimers := pendingTimers - {processingTimer.value};
      processingTimer := None;
    }

    /** Whether the state holds nothing a closed document should keep. */
    predicate IsReleased()
      reads this
    {
      && processingTimer == None && previewPanel == null && cachedHtml == None
      && lastContent == None && parsedDoc == None && lastDiagnostics == []
      && lastProcessingError == None && !isProcessing
    }

    /**
     * `dispose()`: the timer is cleared, the panel disposed and dropped, and the
     * content, cache, document, diagnostics and error are cleared; the validity
     * flags keep their values.
     */
    method Dispose()
      modifies this, previewPanel
      ensures IsReleased()
      ensures old(TimersTracked()) ==> TimersTracked() && pendingTimers == {}
      ensures isValidXml == old(isValidXml) && isRfcXml == old(isRfcXml)
      ensures old(previewPanel) != null ==> old(previewPanel).disposed && old(previewPanel).html == old(previewPanel.html)
    {
      if processingTimer.Some? {
        pendingTimers := pendingTimers - {processingTimer.value};
        processingTimer := None;
      }
      if previewPanel != null {
        previewPanel.Dispose();
        previewPanel := null;
      }
      cachedHtml := None;
      lastContent := None;
      parsedDoc := None;
      lastDiagnostics := [];
      lastProcessingError := None;
      isProcessing := false;
    }
  }

  /**
   * New content that arrives while a run is in flight is not scheduled, and the
   * run's HTML is then cached as if it were current: the state ends with the new
   * content, the old result, no timer, and no further need for processing.
   */
  method StaleResultIsCached(state: DocumentState, newer: string, parse: ParseAttempt, html: string)
    requires state.Valid() && state.isProcessing && state.lastContent != Some(newer) && html != ""
    modifies state
    ensures state.Valid()
    ensures state.lastContent == Some(newer) && state.cachedHtml == Some(html)
    ensures state.processingTimer == None && !state.NeedsProcessing()
  {
    state.UpdateFromDocument(newer, parse);
    state.FinishProcessing(None, Some(html));
  }
}
